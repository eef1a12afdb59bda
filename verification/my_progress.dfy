/** The My Progress page: loading the signed-in user's goals, their milestones and the
    members of the user's pod; the stats cards; the active goal's milestones in `order`;
    the milestone completion toggle with its celebration; and the recent achievements. */
module MyProgress {
  import opened Wrappers
  import opened Js
  import opened Seqs
  import opened Arith
  import opened Entities
  import Goals

  /** `currentUser.id.toString()`. */
  const CurrentKey: Value := Str("1")

  /** The page's state: the lists it renders and the error message ('' when none). */
  datatype Page = Page(goals: seq<Goal>, milestones: seq<Milestone>, podMembers: seq<User>, error: string)

  const LoadError: string := "Failed to load progress data"

  // ---------------------------------------------------------------- loading

  /** `userGoals.some(goal => goal.id === milestone.goalId)`. */
  function OfSomeGoal(goals: seq<Goal>): Milestone -> bool {
    (m: Milestone) => exists j :: 0 <= j < |goals| && goals[j].id == m.goalId
  }

  /** The milestones whose `goalId` is the lowercase `id` of one of the given goals, in
      store order. */
  function UserMilestones(goals: seq<Goal>, milestones: seq<Milestone>): (r: seq<Milestone>)
    ensures Subseq(r, milestones)
    ensures forall m :: m in r <==> m in milestones && exists j :: 0 <= j < |goals| && goals[j].id == m.goalId
  {
    FilterSubseq(milestones, OfSomeGoal(goals));
    Filter(milestones, OfSomeGoal(goals))
  }

  /** `userGoals.some(goal => goal.Id === milestone.goalId)`. */
  function OfSomeGoalById(goals: seq<Goal>): Milestone -> bool {
    (m: Milestone) => exists j :: 0 <= j < |goals| && Num(goals[j].Id) == m.goalId
  }

  /** The milestone lookup keyed as the Goals page links milestones: a milestone belongs
      to a goal when its `goalId` is that goal's numeric `Id`. */
  function UserMilestonesById(goals: seq<Goal>, milestones: seq<Milestone>): (r: seq<Milestone>)
    ensures Subseq(r, milestones)
    ensures forall m :: m in r <==> m in milestones && exists j :: 0 <= j < |goals| && Num(goals[j].Id) == m.goalId
    ensures (forall i :: 0 <= i < |milestones| ==> OfSomeGoalById(goals)(milestones[i])) ==> r == milestones
  {
    FilterSubseq(milestones, OfSomeGoalById(goals));
    FilterKeepsAll(milestones, OfSomeGoalById(goals));
    Filter(milestones, OfSomeGoalById(goals))
  }

  lemma FilterKeepsAll<T>(s: seq<T>, p: T -> bool)
    ensures (forall i :: 0 <= i < |s| ==> p(s[i])) ==> Filter(s, p) == s
  {
    if forall i :: 0 <= i < |s| ==> p(s[i]) {
      FilterAll(s, p);
    }
  }

  function HasMember(key: Value): Pod -> bool {
    (p: Pod) => key in p.memberIds
  }

  /** `memberIds.includes(user.id.toString())`, for a user whose `id` converts. */
  function ListedIn(memberIds: seq<Value>): User -> bool {
    (u: User) => ToText(u.id).Some? && Str(ToText(u.id).value) in memberIds
  }

  /** Some user's `id` is `undefined` or `null`, so `user.id.toString()` throws. */
  predicate SomeIdThrows(users: seq<User>) {
    exists i :: 0 <= i < |users| && ToText(users[i].id).None?
  }

  /** The ids of the first pod that lists the current user, without the current user. */
  function OtherMemberIds(pod: Pod): (r: seq<Value>)
    ensures CurrentKey !in r
    ensures forall v :: v in r <==> v in pod.memberIds && v != CurrentKey
  {
    Filter(pod.memberIds, (v: Value) => v != CurrentKey)
  }

  /** `loadData()` on the lists the four services return. The goals and milestones are set
      before the pod members are computed, so a throwing `toString` leaves them set and
      reports the load error; without a pod that lists '1' the members keep their value. */
  function Load(st: Page, goals: seq<Goal>, milestones: seq<Milestone>, pods: seq<Pod>, users: seq<User>): (r: Page)
    ensures r.goals == Goals.UserGoals(goals)
    ensures r.milestones == UserMilestones(r.goals, milestones)
    ensures (forall i :: 0 <= i < |pods| ==> CurrentKey !in pods[i].memberIds) ==>
      r.podMembers == st.podMembers && r.error == ""
    ensures (exists i :: 0 <= i < |pods| && CurrentKey in pods[i].memberIds) ==>
      (SomeIdThrows(users) <==> r.error == LoadError)
    ensures (exists i :: 0 <= i < |pods| && CurrentKey in pods[i].memberIds) && !SomeIdThrows(users) ==>
      var pod := Find(pods, HasMember(CurrentKey)).value;
      && Subseq(r.podMembers, users)
      && (forall u :: u in r.podMembers <==> u in users && Str(ToText(u.id).value) in pod.memberIds && ToText(u.id).value != "1")
  {
    var userGoals := Goals.UserGoals(goals);
    var userMilestones := UserMilestones(userGoals, milestones);
    match Find(pods, HasMember(CurrentKey))
    case None =>
      Page(userGoals, userMilestones, st.podMembers, "")
    case Some(pod) =>
      if SomeIdThrows(users) then Page(userGoals, userMilestones, st.podMembers, LoadError)
      else
        var ids := OtherMemberIds(pod);
        FilterSubseq(users, ListedIn(ids));
        Page(userGoals, userMilestones, Filter(users, ListedIn(ids)), "")
  }

  /** The current user is never listed among their own pod members, whichever form the
      record's `id` takes. */
  lemma LoadExcludesCurrentUser(st: Page, goals: seq<Goal>, milestones: seq<Milestone>, pods: seq<Pod>, users: seq<User>)
    requires exists i :: 0 <= i < |pods| && CurrentKey in pods[i].memberIds
    requires !SomeIdThrows(users)
    ensures forall u :: u in Load(st, goals, milestones, pods, users).podMembers ==> u.id != Num(1) && u.id != Str("1")
  {
    assert Decimal(1) == "1";
  }

  // ---------------------------------------------------------------- stats

  /** `activeGoals`: the number of goals with status 'active'. */
  function ActiveGoals(goals: seq<Goal>): (n: nat)
    ensures n <= |goals|
    ensures n == 0 <==> forall i :: 0 <= i < |goals| ==> goals[i].status != "active"
    ensures n == Goals.CountStatuses(goals).active
  {
    NoneKeptIffNoneHolds(goals, Goals.HasStatus("active"));
    Count(goals, Goals.HasStatus("active"))
  }

  /** Counting active goals adds up over a split list, and a single goal counts once
      exactly when it is active. */
  lemma ActiveGoalsAdd(a: seq<Goal>, b: seq<Goal>, g: Goal)
    ensures ActiveGoals(a + b) == ActiveGoals(a) + ActiveGoals(b)
    ensures ActiveGoals([g]) == if g.status == "active" then 1 else 0
  {
    FilterConcat(a, b, Goals.HasStatus("active"));
    FilterSingle(g, Goals.HasStatus("active"));
  }

  /** An empty filter means no element satisfies the predicate, and back. */
  lemma NoneKeptIffNoneHolds<T>(s: seq<T>, p: T -> bool)
    ensures |Filter(s, p)| == 0 <==> forall i :: 0 <= i < |s| ==> !p(s[i])
  {
    if exists i :: 0 <= i < |s| && p(s[i]) {
      var i :| 0 <= i < |s| && p(s[i]);
      assert s[i] in Filter(s, p);
    }
  }

  function IsDone(m: Milestone): bool {
    m.completed
  }

  /** The Completion Rate card: completed milestones as a rounded percentage of all of
      them, 0 when there are none. */
  function CompletionRate(milestones: seq<Milestone>): (pct: nat)
    ensures pct <= 100
    ensures milestones == [] ==> pct == 0
    ensures milestones != [] ==>
      pct == ((100 * Count(milestones, IsDone)) as real / |milestones| as real + 0.5).Floor
    ensures milestones != [] ==> (pct == 100 <== forall i :: 0 <= i < |milestones| ==> milestones[i].completed)
    ensures pct == 0 <== forall i :: 0 <= i < |milestones| ==> !milestones[i].completed
  {
    var c := Count(milestones, IsDone);
    RoundPercentBounds(c, |milestones|);
    NoneKeptIffNoneHolds(milestones, IsDone);
    if milestones == [] then 0
    else
      if forall i :: 0 <= i < |milestones| ==> milestones[i].completed then
        FilterAll(milestones, IsDone);
        RoundPercentIsMathRound(c, |milestones|);
        RoundPercent(c, |milestones|)
      else
        RoundPercentIsMathRound(c, |milestones|);
        RoundPercent(c, |milestones|)
  }

  // ---------------------------------------------------------------- ordering by `order`

  /** Ascending by `order`. */
  predicate SortedByOrder(s: seq<Milestone>) {
    forall i, j :: 0 <= i < j < |s| ==> s[i].order <= s[j].order
  }

  /** Where `x` goes in a sorted list: after every milestone whose order is not larger. */
  function InsertPos(t: seq<Milestone>, x: Milestone): (p: nat)
    requires SortedByOrder(t)
    ensures p <= |t|
    ensures forall i :: 0 <= i < p ==> t[i].order <= x.order
    ensures forall i :: p <= i < |t| ==> t[i].order > x.order
  {
    if t == [] || t[|t| - 1].order <= x.order then |t|
    else InsertPos(t[..|t| - 1], x)
  }

  function Insert(t: seq<Milestone>, x: Milestone): (r: seq<Milestone>)
    requires SortedByOrder(t)
    ensures SortedByOrder(r)
    ensures multiset(r) == multiset(t) + multiset{x}
  {
    var p := InsertPos(t, x);
    assert t == t[..p] + t[p..];
    t[..p] + [x] + t[p..]
  }

  /** `s.sort((a, b) => a.order - b.order)`: a stable sort, written as insertion of each
      milestone, left to right, after the equal ones already placed. */
  function SortByOrder(s: seq<Milestone>): (r: seq<Milestone>)
    ensures SortedByOrder(r)
    ensures multiset(r) == multiset(s)
    ensures |r| == |s|
    decreases |s|
  {
    if s == [] then []
    else
      var init := s[..|s| - 1];
      assert s == init + [s[|s| - 1]];
      Insert(SortByOrder(init), s[|s| - 1])
  }

  function OrderIs(k: int): Milestone -> bool {
    (m: Milestone) => m.order == k
  }

  /** Inserting keeps the milestones of every order in place, adding `x` behind its equals. */
  lemma InsertStable(t: seq<Milestone>, x: Milestone, k: int)
    requires SortedByOrder(t)
    ensures Filter(Insert(t, x), OrderIs(k)) == Filter(t, OrderIs(k)) + (if x.order == k then [x] else [])
  {
    var p := InsertPos(t, x);
    var lo, hi := t[..p], t[p..];
    assert t == lo + hi;
    assert Insert(t, x) == lo + [x] + hi;
    if x.order == k {
      FilterNone(hi, OrderIs(k));
    }
    FilterSpliceAtEnd(lo, x, hi, OrderIs(k));
  }

  /** The sort is stable: milestones with equal `order` keep their relative order. */
  lemma {:induction false} SortStable(s: seq<Milestone>, k: int)
    ensures Filter(SortByOrder(s), OrderIs(k)) == Filter(s, OrderIs(k))
    decreases |s|
  {
    if s != [] {
      var init, x := s[..|s| - 1], s[|s| - 1];
      assert s == init + [x];
      SortStable(init, k);
      InsertStable(SortByOrder(init), x, k);
      FilterConcat(init, [x], OrderIs(k));
      FilterSingle(x, OrderIs(k));
    }
  }

  /** `milestone.goalId === goal.id`. */
  function ForGoal(goalId: Value): Milestone -> bool {
    (m: Milestone) => m.goalId == goalId
  }

  /** `activeGoalMilestones`: the first active goal's milestones sorted by `order`, or none
      when no goal is active. */
  function ActiveGoalMilestones(goals: seq<Goal>, milestones: seq<Milestone>): (r: seq<Milestone>)
    ensures Find(goals, Goals.HasStatus("active")).None? ==> r == []
    ensures Find(goals, Goals.HasStatus("active")).Some? ==>
      var g := Find(goals, Goals.HasStatus("active")).value;
      && SortedByOrder(r)
      && multiset(r) == multiset(Filter(milestones, ForGoal(g.id)))
      && (forall i :: 0 <= i < |r| ==> r[i].goalId == g.id)
  {
    match Find(goals, Goals.HasStatus("active"))
    case None => []
    case Some(g) =>
      var r := SortByOrder(Filter(milestones, ForGoal(g.id)));
      assert forall i :: 0 <= i < |r| ==> r[i] in multiset(r);
      r
  }

  // ---------------------------------------------------------------- the completion toggle

  /** `m.id === milestoneId`; the item passes the numeric `Id` while the page compares the
      lowercase `id`. */
  function IdIs(milestoneId: Value): Milestone -> bool {
    (m: Milestone) => m.id == milestoneId
  }

  /** What the toggle announces. */
  datatype Notice =
    | Quiet
    | Celebrated(message: string, podNotified: bool)
    | Unmarked(message: string)
    | UpdateFailed(message: string)

  const UpdateError: string := "Failed to update milestone"

  /** `handleToggleMilestone(milestoneId)`. `storeOk` is whether `milestoneService.update`
      succeeds; `pods` is what `notifyPodMembers` reads. */
  function ToggleMilestone(st: Page, milestoneId: Value, storeOk: bool, pods: seq<Pod>): (r: (Page, Notice))
    ensures Find(st.milestones, IdIs(milestoneId)).None? ==> r == (st, Quiet)
    ensures Find(st.milestones, IdIs(milestoneId)).Some? && !storeOk ==>
      r.0 == st.(error := UpdateError) && r.1 == UpdateFailed("Failed to update milestone. Please try again.")
    ensures Find(st.milestones, IdIs(milestoneId)).Some? && storeOk ==>
      var m := Find(st.milestones, IdIs(milestoneId)).value;
      && r.0.goals == st.goals && r.0.podMembers == st.podMembers && r.0.error == st.error
      && |r.0.milestones| == |st.milestones|
      && (forall i :: 0 <= i < |st.milestones| ==>
            r.0.milestones[i] == if st.milestones[i].id == milestoneId then m.(completed := !m.completed) else st.milestones[i])
      && (r.1.Celebrated? <==> !m.completed)
      && (r.1.Unmarked? <==> m.completed)
  {
    match Find(st.milestones, IdIs(milestoneId))
    case None => (st, Quiet)
    case Some(m) =>
      if !storeOk then (st.(error := UpdateError), UpdateFailed("Failed to update milestone. Please try again."))
      else
        var updated := m.(completed := !m.completed);
        var ms := seq(|st.milestones|, i requires 0 <= i < |st.milestones| =>
          if st.milestones[i].id == milestoneId then updated else st.milestones[i]);
        var notice :=
          if !m.completed && updated.completed then
            Celebrated("\U{1F389} Milestone completed: " + m.title, Find(pods, HasMember(CurrentKey)).Some?)
          else if m.completed && !updated.completed then
            Unmarked("Milestone unmarked: " + m.title)
          else Quiet;
        (st.(milestones := ms), notice)
  }

  /** Lowercase ids are distinct among the milestones with the given id. */
  predicate IdUnique(ms: seq<Milestone>, id: Value) {
    forall i, j :: 0 <= i < |ms| && 0 <= j < |ms| && ms[i].id == id && ms[j].id == id ==> i == j
  }

  /** With a unique id, toggling twice (both updates succeeding) restores the milestones,
      and the two notices are one celebration and one unmark. */
  lemma ToggleTwiceRestores(st: Page, milestoneId: Value, pods: seq<Pod>)
    requires IdUnique(st.milestones, milestoneId)
    ensures var once := ToggleMilestone(st, milestoneId, true, pods);
      var twice := ToggleMilestone(once.0, milestoneId, true, pods);
      && twice.0 == st
      && (Find(st.milestones, IdIs(milestoneId)).Some? ==> (once.1.Celebrated? <==> twice.1.Unmarked?))
  {
    var once := ToggleMilestone(st, milestoneId, true, pods);
    var f := Find(st.milestones, IdIs(milestoneId));
    if f.Some? {
      var m := f.value;
      var k := FindIndex(st.milestones, IdIs(milestoneId));
      assert st.milestones[k] == m;
      var ms1 := once.0.milestones;
      assert ms1[k] == m.(completed := !m.completed);
      var k1 := FindIndex(ms1, IdIs(milestoneId));
      assert k1 == k by {
        forall j | 0 <= j < k
          ensures !IdIs(milestoneId)(ms1[j])
        {
          assert ms1[j] == st.milestones[j];
        }
      }
      var twice := ToggleMilestone(once.0, milestoneId, true, pods);
      assert twice.0.milestones == st.milestones by {
        forall i | 0 <= i < |st.milestones|
          ensures twice.0.milestones[i] == st.milestones[i]
        {
          if st.milestones[i].id == milestoneId {
            assert i == k;
          }
        }
      }
    }
  }

  // ---------------------------------------------------------------- recent achievements

  /** The Recent Achievements list: the first three completed milestones, in list order. */
  function RecentAchievements(milestones: seq<Milestone>): (r: seq<Milestone>)
    ensures |r| <= 3
    ensures r <= Filter(milestones, IsDone)
    ensures |r| == if Count(milestones, IsDone) < 3 then Count(milestones, IsDone) else 3
    ensures forall i :: 0 <= i < |r| ==> r[i].completed && r[i] in milestones
  {
    var done := Filter(milestones, IsDone);
    var r := Take(done, 3);
    assert forall i :: 0 <= i < |r| ==> r[i] == done[i];
    r
  }

  /** Completing a milestone can only add to what the stats count as completed. */
  lemma ToggleCelebrationRaisesCount(st: Page, milestoneId: Value, pods: seq<Pod>)
    requires IdUnique(st.milestones, milestoneId)
    requires Find(st.milestones, IdIs(milestoneId)).Some?
    ensures var r := ToggleMilestone(st, milestoneId, true, pods);
      r.1.Celebrated? ==> Count(r.0.milestones, IsDone) == Count(st.milestones, IsDone) + 1
  {
    var r := ToggleMilestone(st, milestoneId, true, pods);
    var k := FindIndex(st.milestones, IdIs(milestoneId));
    if r.1.Celebrated? {
      var m := st.milestones[k];
      assert r.0.milestones == st.milestones[k := m.(completed := true)] by {
        forall i | 0 <= i < |st.milestones|
          ensures r.0.milestones[i] == st.milestones[k := m.(completed := true)][i]
        {
          if st.milestones[i].id == milestoneId {
            assert i == k;
          }
        }
      }
      CountSetTrue(st.milestones, k);
    }
  }

  /** Marking one incomplete milestone completed raises the completed count by one. */
  lemma {:induction false} CountSetTrue(ms: seq<Milestone>, k: nat)
    requires k < |ms| && !ms[k].completed
    ensures Count(ms[k := ms[k].(completed := true)], IsDone) == Count(ms, IsDone) + 1
    decreases |ms|
  {
    var ms' := ms[k := ms[k].(completed := true)];
    if k == 0 {
      assert ms'[1..] == ms[1..];
    } else {
      assert ms'[1..] == ms[1..][k - 1 := ms[k].(completed := true)];
      CountSetTrue(ms[1..], k - 1);
    }
  }
}
