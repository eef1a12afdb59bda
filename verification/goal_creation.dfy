/** Goal creation on the Goals page: the wizard's goal is stored through goalService, then
    one milestone per generated milestone through milestoneService, each linked to the new
    goal; afterwards the page reloads the signed-in user's goals. */
module GoalCreation {
  import opened Js
  import opened Seqs
  import KeyedStore
  import GoalWizard
  import Goals
  import Entities
  import MyProgress

  /** A wizard milestone as a plain object; its ISO due date is left opaque. */
  function MilestoneObject(d: GoalWizard.MilestoneDraft): Object {
    map["title" := Str(d.title), "description" := Str(d.description), "order" := Num(d.order), "dueDate" := Other]
  }

  /** The wizard's goal as the object handed to `goalService.create`. */
  function GoalObject(g: GoalWizard.GoalData): (o: Object)
    ensures Get(o, "userId") == Str(g.userId)
    ensures Get(o, "id") == Str(Decimal(g.createdAt))
    ensures "Id" !in o
  {
    map["title" := Str(g.title), "description" := Str(g.description), "category" := Str(g.category),
        "targetDate" := Str(g.targetDate), "milestones" := Arr(seq(|g.milestones|, _ => Other)),
        "id" := Str(Decimal(g.createdAt)), "userId" := Str(g.userId), "createdDate" := Other,
        "status" := Str(g.status)]
  }

  function Drafts(ms: seq<GoalWizard.MilestoneDraft>): (r: seq<Object>)
    ensures |r| == |ms|
    ensures forall i :: 0 <= i < |ms| ==>
      Get(r[i], "order") == Num(ms[i].order) && Get(r[i], "title") == Str(ms[i].title)
  {
    seq(|ms|, i requires 0 <= i < |ms| => MilestoneObject(ms[i]))
  }

  /** The fields the page adds to each milestone it stores. */
  function LinkFields(goalId: int): Object {
    map["goalId" := Num(goalId), "completed" := Bool(false)]
  }

  /** A milestone as stored: the wizard's fields, then the link fields, then the Id. */
  function Linked(d: Object, goalId: int, id: int): Object {
    KeyedStore.WithId(Spread(d, LinkFields(goalId)), id)
  }

  /** A stored milestone carries its Id, points at the goal, starts not completed, and
      keeps every other field of the wizard's milestone. */
  lemma LinkedFields(d: Object, goalId: int, id: int)
    ensures Get(Linked(d, goalId, id), "Id") == Num(id)
    ensures Get(Linked(d, goalId, id), "goalId") == Num(goalId)
    ensures Get(Linked(d, goalId, id), "completed") == Bool(false)
    ensures forall f :: f != "Id" && f != "goalId" && f != "completed" ==> Get(Linked(d, goalId, id), f) == Get(d, f)
  {}

  /** The loop of `milestoneService.create` calls: each milestone, linked to the goal,
      is created in turn on the store the previous call left. */
  function CreateAll(store: KeyedStore.Store, drafts: seq<Object>, goalId: int): (r: KeyedStore.Store)
    requires |store| > 0 && KeyedStore.WellKeyed(store)
    ensures |r| == |store| + |drafts|
    decreases |drafts|
  {
    if drafts == [] then store
    else CreateAll(KeyedStore.Create(store, Spread(drafts[0], LinkFields(goalId))).store, drafts[1..], goalId)
  }

  /** The milestones the loop stores, in closed form: the i-th draft, linked to the goal,
      under the Id `base + i`. */
  function LinkedFrom(drafts: seq<Object>, goalId: int, base: int): (r: seq<Object>)
    ensures |r| == |drafts|
  {
    seq(|drafts|, i requires 0 <= i < |drafts| => Linked(drafts[i], goalId, base + i))
  }

  /** One step of the loop is the milestone store's `create` of the linked milestone. */
  lemma CreateStepIsLinked(store: KeyedStore.Store, d: Object, goalId: int)
    requires |store| > 0 && KeyedStore.WellKeyed(store)
    ensures KeyedStore.Create(store, Spread(d, LinkFields(goalId))).record == Linked(d, goalId, KeyedStore.NextId(store))
  {}

  /** The closed form peels off its first record; the rest starts one Id higher. */
  lemma LinkedFromCons(drafts: seq<Object>, goalId: int, base: int)
    requires drafts != []
    ensures LinkedFrom(drafts, goalId, base) == [Linked(drafts[0], goalId, base)] + LinkedFrom(drafts[1..], goalId, base + 1)
  {
    var whole := LinkedFrom(drafts, goalId, base);
    var tail := LinkedFrom(drafts[1..], goalId, base + 1);
    forall i | 0 <= i < |whole|
      ensures ([Linked(drafts[0], goalId, base)] + tail)[i] == whole[i]
    {
      if i > 0 {
        assert tail[i - 1] == Linked(drafts[1..][i - 1], goalId, base + 1 + (i - 1));
      }
    }
  }

  /** The loop appends exactly the closed-form records: consecutive Ids above the store's
      largest, in draft order. */
  lemma {:induction false} CreateAllAppendsLinked(store: KeyedStore.Store, drafts: seq<Object>, goalId: int)
    requires |store| > 0 && KeyedStore.WellKeyed(store)
    ensures CreateAll(store, drafts, goalId) == store + LinkedFrom(drafts, goalId, KeyedStore.NextId(store))
    decreases |drafts|
  {
    if drafts != [] {
      var base := KeyedStore.NextId(store);
      var next := store + [Linked(drafts[0], goalId, base)];
      var whole := CreateAll(store, drafts, goalId);
      assert KeyedStore.WellKeyed(next) && KeyedStore.NextId(next) == base + 1
        && whole == CreateAll(next, drafts[1..], goalId) by {
        CreateAllStep(store, drafts, goalId);
      }
      assert whole == next + LinkedFrom(drafts[1..], goalId, base + 1) by {
        CreateAllAppendsLinked(next, drafts[1..], goalId);
      }
      LinkedFromPrepend(store, drafts, goalId, base, whole);
    }
  }

  /** A store that holds the first linked draft and then the closed form of the rest holds
      the closed form of all the drafts. */
  lemma LinkedFromPrepend(store: KeyedStore.Store, drafts: seq<Object>, goalId: int, base: int,
                          whole: KeyedStore.Store)
    requires drafts != []
    requires whole == store + [Linked(drafts[0], goalId, base)] + LinkedFrom(drafts[1..], goalId, base + 1)
    ensures whole == store + LinkedFrom(drafts, goalId, base)
  {
    var first := Linked(drafts[0], goalId, base);
    LinkedFromCons(drafts, goalId, base);
    AppendThroughStep(whole, store + [first], store, first, LinkedFrom(drafts[1..], goalId, base + 1),
                      LinkedFrom(drafts, goalId, base));
  }

  /** One turn of the loop appends the first draft, linked, under the next Id, and
      raises the next Id by one. */
  lemma CreateAllStep(store: KeyedStore.Store, drafts: seq<Object>, goalId: int)
    requires |store| > 0 && KeyedStore.WellKeyed(store) && drafts != []
    ensures var next := store + [Linked(drafts[0], goalId, KeyedStore.NextId(store))];
      && KeyedStore.WellKeyed(next)
      && KeyedStore.NextId(next) == KeyedStore.NextId(store) + 1
      && CreateAll(store, drafts, goalId) == CreateAll(next, drafts[1..], goalId)
  {
    var c := KeyedStore.Create(store, Spread(drafts[0], LinkFields(goalId)));
    CreateStepIsLinked(store, drafts[0], goalId);
    KeyedStore.CreateRaisesMaxId(store, Spread(drafts[0], LinkFields(goalId)));
    assert c.store == store + [Linked(drafts[0], goalId, KeyedStore.NextId(store))];
  }

  /** Every closed-form record carries its Id, points at the goal, is not completed, and
      keeps the draft's order and title. */
  lemma LinkedFromFields(drafts: seq<Object>, goalId: int, base: int)
    ensures forall i :: 0 <= i < |drafts| ==>
      var m := LinkedFrom(drafts, goalId, base)[i];
      && Get(m, "Id") == Num(base + i)
      && Get(m, "goalId") == Num(goalId)
      && Get(m, "completed") == Bool(false)
      && Get(m, "order") == Get(drafts[i], "order")
      && Get(m, "title") == Get(drafts[i], "title")
  {
    forall i | 0 <= i < |drafts|
      ensures var m := LinkedFrom(drafts, goalId, base)[i];
        && Get(m, "Id") == Num(base + i)
        && Get(m, "goalId") == Num(goalId)
        && Get(m, "completed") == Bool(false)
        && Get(m, "order") == Get(drafts[i], "order")
        && Get(m, "title") == Get(drafts[i], "title")
    {
      var m := LinkedFrom(drafts, goalId, base)[i];
      assert m == Linked(drafts[i], goalId, base + i);
      LinkedFields(drafts[i], goalId, base + i);
    }
  }

  /** What `handleCreateGoal` leaves: both stores and the created goal. */
  datatype Creation = Creation(goals: KeyedStore.Store, milestones: KeyedStore.Store, goal: Object)

  /** `handleCreateGoal(goalData)` on non-empty stores, with `drafts` the objects of
      `goalData.milestones`: the goal is stored under the next goal Id with the data's other
      fields, and one milestone is stored per draft (`CreationStoresLinked` says which). */
  function HandleCreateGoal(goals: KeyedStore.Store, milestones: KeyedStore.Store,
                            goalData: Object, drafts: seq<Object>): (r: Creation)
    requires |goals| > 0 && KeyedStore.WellKeyed(goals)
    requires |milestones| > 0 && KeyedStore.WellKeyed(milestones)
    ensures r.goals == goals + [r.goal]
    ensures Get(r.goal, "Id") == Num(KeyedStore.NextId(goals))
    ensures forall f :: f != "Id" ==> Get(r.goal, f) == Get(goalData, f)
    ensures |r.milestones| == |milestones| + |drafts|
  {
    var c := KeyedStore.Create(goals, goalData);
    Creation(c.store, CreateAll(milestones, drafts, KeyedStore.IdOf(c.record)), c.record)
  }

  /** The milestone store grows by exactly the closed-form records, linked to the new
      goal's Id, under consecutive Ids above the largest milestone Id (see
      `LinkedFromFields` for what each record holds). */
  lemma CreationStoresLinked(goals: KeyedStore.Store, milestones: KeyedStore.Store,
                             goalData: Object, drafts: seq<Object>)
    requires |goals| > 0 && KeyedStore.WellKeyed(goals)
    requires |milestones| > 0 && KeyedStore.WellKeyed(milestones)
    ensures HandleCreateGoal(goals, milestones, goalData, drafts).milestones
      == milestones + LinkedFrom(drafts, KeyedStore.NextId(goals), KeyedStore.NextId(milestones))
  {
    var goalId := KeyedStore.NextId(goals);
    var c := KeyedStore.Create(goals, goalData);
    assert KeyedStore.IdOf(c.record) == goalId;
    assert HandleCreateGoal(goals, milestones, goalData, drafts).milestones == CreateAll(milestones, drafts, goalId);
    CreateAllAppendsLinked(milestones, drafts, goalId);
  }

  /** What the wizard's `onComplete` hands over: its goal object and milestone objects. The
      stored goal carries the wizard's `userId`. */
  function FromWizard(goals: KeyedStore.Store, milestones: KeyedStore.Store, g: GoalWizard.GoalData): (r: Creation)
    requires |goals| > 0 && KeyedStore.WellKeyed(goals)
    requires |milestones| > 0 && KeyedStore.WellKeyed(milestones)
    ensures r.goals == goals + [r.goal]
    ensures Get(r.goal, "userId") == Str(g.userId)
  {
    HandleCreateGoal(goals, milestones, GoalObject(g), Drafts(g.milestones))
  }

  /** The goal list after the page's reload: the stored goals owned by '1'. */
  function ReloadedGoals(goals: KeyedStore.Store): (r: KeyedStore.Store)
    ensures forall i :: 0 <= i < |r| ==> r[i] in goals && Get(r[i], "userId") == Goals.OwnerKey
    ensures forall i :: 0 <= i < |goals| && Get(goals[i], "userId") == Goals.OwnerKey ==> goals[i] in r
  {
    Filter(goals, (o: Object) => Get(o, "userId") == Goals.OwnerKey)
  }

  /** As written, a goal made with the wizard is stored under 'user1' and is gone from
      the list as soon as the page reloads. */
  lemma WizardGoalVanishesOnReload(goals: KeyedStore.Store, milestones: KeyedStore.Store,
                                   st: GoalWizard.State, now: int)
    requires |goals| > 0 && KeyedStore.WellKeyed(goals)
    requires |milestones| > 0 && KeyedStore.WellKeyed(milestones)
    requires GoalWizard.Submit(st, now).Some?
    ensures var c := FromWizard(goals, milestones, GoalWizard.Submit(st, now).value);
      c.goal !in ReloadedGoals(c.goals)
  {}

  /** With the intended owner the created goal survives the reload. */
  lemma IntendedGoalSurvivesReload(goals: KeyedStore.Store, milestones: KeyedStore.Store,
                                   st: GoalWizard.State, now: int)
    requires |goals| > 0 && KeyedStore.WellKeyed(goals)
    requires |milestones| > 0 && KeyedStore.WellKeyed(milestones)
    requires GoalWizard.SubmitIntended(st, now).Some?
    ensures var c := FromWizard(goals, milestones, GoalWizard.SubmitIntended(st, now).value);
      c.goal in ReloadedGoals(c.goals)
  {
    var c := FromWizard(goals, milestones, GoalWizard.SubmitIntended(st, now).value);
    assert c.goals[|goals|] == c.goal;
  }

  // ---------------------------------------------------------------- read back on My Progress

  function TextOf(v: Value): string {
    if v.Str? then v.s else ""
  }

  function NumOf(v: Value): int {
    if v.Num? then v.n else 0
  }

  /** A stored goal as My Progress reads it. */
  function AsGoal(o: Object): (g: Entities.Goal)
    ensures g.id == Get(o, "id") && g.userId == Get(o, "userId")
    ensures Get(o, "Id").Num? ==> g.Id == Get(o, "Id").n
  {
    Entities.Goal(NumOf(Get(o, "Id")), Get(o, "id"), Get(o, "userId"),
                  TextOf(Get(o, "title")), TextOf(Get(o, "category")), TextOf(Get(o, "status")))
  }

  /** A stored milestone as My Progress reads it; its opaque ISO due date reads as 0. */
  function AsMilestone(o: Object): (m: Entities.Milestone)
    ensures m.id == Get(o, "id") && m.goalId == Get(o, "goalId")
  {
    Entities.Milestone(NumOf(Get(o, "Id")), Get(o, "id"), Get(o, "goalId"), TextOf(Get(o, "title")),
                       NumOf(Get(o, "order")), 0, Get(o, "completed") == Bool(true))
  }

  function AsMilestones(os: seq<Object>): (ms: seq<Entities.Milestone>)
    ensures |ms| == |os|
    ensures forall i :: 0 <= i < |os| ==> ms[i] == AsMilestone(os[i])
  {
    seq(|os|, i requires 0 <= i < |os| => AsMilestone(os[i]))
  }

  /** The stored wizard goal keeps the wizard's lowercase `id`, takes the next goal `Id`,
      and the milestone store grows by the linked drafts. */
  lemma WizardGoalStored(goals: KeyedStore.Store, milestones: KeyedStore.Store, g: GoalWizard.GoalData)
    requires |goals| > 0 && KeyedStore.WellKeyed(goals)
    requires |milestones| > 0 && KeyedStore.WellKeyed(milestones)
    ensures var c := FromWizard(goals, milestones, g);
      && Get(c.goal, "Id") == Num(KeyedStore.NextId(goals))
      && Get(c.goal, "id") == Str(Decimal(g.createdAt))
      && c.milestones[|milestones|..]
         == LinkedFrom(Drafts(g.milestones), KeyedStore.NextId(goals), KeyedStore.NextId(milestones))
  {
    var c := FromWizard(goals, milestones, g);
    assert Get(c.goal, "id") == Get(GoalObject(g), "id");
    assert c.milestones[|milestones|..]
      == LinkedFrom(Drafts(g.milestones), KeyedStore.NextId(goals), KeyedStore.NextId(milestones)) by {
      CreationStoresLinked(goals, milestones, GoalObject(g), Drafts(g.milestones));
    }
  }

  /** Read back, a linked draft points at the goal and keeps the draft's lowercase `id`. */
  lemma LinkedReadAt(d: Object, goalId: int, id: int)
    ensures AsMilestone(Linked(d, goalId, id)).goalId == Num(goalId)
    ensures AsMilestone(Linked(d, goalId, id)).id == Get(d, "id")
  {
    LinkedFields(d, goalId, id);
  }

  /** Read back, linked drafts without a lowercase `id` point at the goal and have no `id`. */
  lemma LinkedReadBack(drafts: seq<Object>, goalId: int, base: int)
    requires forall i :: 0 <= i < |drafts| ==> "id" !in drafts[i]
    ensures var added := AsMilestones(LinkedFrom(drafts, goalId, base));
      && |added| == |drafts|
      && forall i :: 0 <= i < |added| ==> added[i].goalId == Num(goalId) && added[i].id == Undef
  {
    var linked := LinkedFrom(drafts, goalId, base);
    var added := AsMilestones(linked);
    forall i | 0 <= i < |added|
      ensures added[i].goalId == Num(goalId) && added[i].id == Undef
    {
      LinkedReadOne(drafts, goalId, base, i);
    }
  }

  lemma LinkedReadOne(drafts: seq<Object>, goalId: int, base: int, i: nat)
    requires i < |drafts| && "id" !in drafts[i]
    ensures AsMilestones(LinkedFrom(drafts, goalId, base))[i].goalId == Num(goalId)
    ensures AsMilestones(LinkedFrom(drafts, goalId, base))[i].id == Undef
  {
    var linked := LinkedFrom(drafts, goalId, base);
    assert linked[i] == Linked(drafts[i], goalId, base + i);
    LinkedReadAt(drafts[i], goalId, base + i);
  }

  /** The wizard's milestone objects carry no lowercase `id`. */
  lemma DraftsHaveNoId(ms: seq<GoalWizard.MilestoneDraft>)
    ensures forall i :: 0 <= i < |Drafts(ms)| ==> "id" !in Drafts(ms)[i]
  {}

  /** The milestones a wizard goal's creation adds point at the goal's numeric `Id` and
      carry no lowercase `id`, while the goal's `id` is the text of a clock reading. */
  lemma AddedMilestones(goals: KeyedStore.Store, milestones: KeyedStore.Store, g: GoalWizard.GoalData)
    requires |goals| > 0 && KeyedStore.WellKeyed(goals)
    requires |milestones| > 0 && KeyedStore.WellKeyed(milestones)
    ensures var c := FromWizard(goals, milestones, g);
      var added := AsMilestones(c.milestones[|milestones|..]);
      && |added| == |g.milestones|
      && AsGoal(c.goal).Id == KeyedStore.NextId(goals)
      && AsGoal(c.goal).id == Str(Decimal(g.createdAt))
      && forall i :: 0 <= i < |added| ==>
           added[i].goalId == Num(KeyedStore.NextId(goals)) && added[i].id == Undef
  {
    WizardGoalStored(goals, milestones, g);
    DraftsHaveNoId(g.milestones);
    LinkedReadBack(Drafts(g.milestones), KeyedStore.NextId(goals), KeyedStore.NextId(milestones));
  }

  /** A creation's added milestones point at the new goal's numeric `Id`, so none of
      them matches its lowercase `id`, the text of a clock reading. */
  lemma AddedMilestonesUnlinked(goals: KeyedStore.Store, milestones: KeyedStore.Store,
                                g: GoalWizard.GoalData)
    requires |goals| > 0 && KeyedStore.WellKeyed(goals)
    requires |milestones| > 0 && KeyedStore.WellKeyed(milestones)
    ensures var c := FromWizard(goals, milestones, g);
      MyProgress.UserMilestones([AsGoal(c.goal)], AsMilestones(c.milestones[|milestones|..])) == []
  {
    AddedMilestones(goals, milestones, g);
    var c := FromWizard(goals, milestones, g);
    var added := AsMilestones(c.milestones[|milestones|..]);
    FilterNone(added, MyProgress.OfSomeGoal([AsGoal(c.goal)]));
  }

  function AsGoals(os: seq<Object>): (gs: seq<Entities.Goal>)
    ensures |gs| == |os|
    ensures forall i :: 0 <= i < |os| ==> gs[i] == AsGoal(os[i])
  {
    seq(|os|, i requires 0 <= i < |os| => AsGoal(os[i]))
  }

  /** A goal from the intended wizard (owned by '1') passes My Progress's owner filter. */
  lemma IntendedGoalLoaded(goals: KeyedStore.Store, milestones: KeyedStore.Store,
                           st: GoalWizard.State, now: int)
    requires |goals| > 0 && KeyedStore.WellKeyed(goals)
    requires |milestones| > 0 && KeyedStore.WellKeyed(milestones)
    requires GoalWizard.SubmitIntended(st, now).Some?
    ensures var c := FromWizard(goals, milestones, GoalWizard.SubmitIntended(st, now).value);
      AsGoal(c.goal) in Goals.UserGoals(AsGoals(c.goals))
  {
    var g := GoalWizard.SubmitIntended(st, now).value;
    var c := FromWizard(goals, milestones, g);
    assert c.goals[|goals|] == c.goal;
    assert AsGoals(c.goals)[|goals|] == AsGoal(c.goal);
    assert AsGoal(c.goal).userId == Goals.OwnerKey;
  }

  /** The added milestones read back from the whole milestone store. */
  lemma AddedAmongStored(milestones: KeyedStore.Store, all: KeyedStore.Store)
    requires |milestones| <= |all|
    ensures var added := AsMilestones(all[|milestones|..]);
      forall i :: 0 <= i < |added| ==> added[i] == AsMilestones(all)[|milestones| + i]
  {}

  /** As written, My Progress matches a milestone's `goalId` against the goals' lowercase
      `id`. Even with the wizard goal owned by '1', so that the load keeps it, the page
      lists none of the milestones its creation added under it: they point at the numeric
      `Id`, while the goal's `id` is the text of a clock reading. */
  lemma CreatedMilestonesUnlistedAsWritten(goals: KeyedStore.Store, milestones: KeyedStore.Store,
                                           st: GoalWizard.State, now: int,
                                           page: MyProgress.Page, pods: seq<Entities.Pod>,
                                           users: seq<Entities.User>)
    requires |goals| > 0 && KeyedStore.WellKeyed(goals)
    requires |milestones| > 0 && KeyedStore.WellKeyed(milestones)
    requires GoalWizard.SubmitIntended(st, now).Some?
    ensures var c := FromWizard(goals, milestones, GoalWizard.SubmitIntended(st, now).value);
      var loaded := MyProgress.Load(page, AsGoals(c.goals), AsMilestones(c.milestones), pods, users);
      var added := AsMilestones(c.milestones[|milestones|..]);
      && AsGoal(c.goal) in loaded.goals
      && |added| == |GoalWizard.SubmitIntended(st, now).value.milestones|
      && forall i :: 0 <= i < |added| ==> added[i] !in MyProgress.UserMilestones([AsGoal(c.goal)], loaded.milestones)
  {
    var g := GoalWizard.SubmitIntended(st, now).value;
    var c := FromWizard(goals, milestones, g);
    IntendedGoalLoaded(goals, milestones, st, now);
    AddedMilestones(goals, milestones, g);
    var loaded := MyProgress.Load(page, AsGoals(c.goals), AsMilestones(c.milestones), pods, users);
    var added := AsMilestones(c.milestones[|milestones|..]);
    var listed := MyProgress.UserMilestones([AsGoal(c.goal)], loaded.milestones);
    forall i | 0 <= i < |added|
      ensures added[i] !in listed
    {
      assert added[i].goalId != [AsGoal(c.goal)][0].id;
    }
  }

  /** Matched on the numeric `Id`, every milestone the creation adds is listed under the
      new goal, in the order it was stored. */
  lemma CreatedMilestonesListedById(goals: KeyedStore.Store, milestones: KeyedStore.Store,
                                    g: GoalWizard.GoalData)
    requires |goals| > 0 && KeyedStore.WellKeyed(goals)
    requires |milestones| > 0 && KeyedStore.WellKeyed(milestones)
    ensures var c := FromWizard(goals, milestones, g);
      var added := AsMilestones(c.milestones[|milestones|..]);
      MyProgress.UserMilestonesById([AsGoal(c.goal)], added) == added
  {
    AddedMilestones(goals, milestones, g);
    var c := FromWizard(goals, milestones, g);
    var added := AsMilestones(c.milestones[|milestones|..]);
    assert forall i :: 0 <= i < |added| ==> MyProgress.OfSomeGoalById([AsGoal(c.goal)])(added[i]) by {
      forall i | 0 <= i < |added|
        ensures MyProgress.OfSomeGoalById([AsGoal(c.goal)])(added[i])
      {
        assert Num([AsGoal(c.goal)][0].Id) == added[i].goalId;
      }
    }
  }

  /** With the owner fixed to '1' and milestones matched on the numeric `Id`, the load
      keeps the new goal and lists every milestone its creation added. */
  lemma IntendedMilestonesLoadedById(goals: KeyedStore.Store, milestones: KeyedStore.Store,
                                     st: GoalWizard.State, now: int)
    requires |goals| > 0 && KeyedStore.WellKeyed(goals)
    requires |milestones| > 0 && KeyedStore.WellKeyed(milestones)
    requires GoalWizard.SubmitIntended(st, now).Some?
    ensures var c := FromWizard(goals, milestones, GoalWizard.SubmitIntended(st, now).value);
      var userGoals := Goals.UserGoals(AsGoals(c.goals));
      var added := AsMilestones(c.milestones[|milestones|..]);
      && AsGoal(c.goal) in userGoals
      && |added| == |GoalWizard.SubmitIntended(st, now).value.milestones|
      && forall i :: 0 <= i < |added| ==>
           added[i] in MyProgress.UserMilestonesById(userGoals, AsMilestones(c.milestones))
  {
    var g := GoalWizard.SubmitIntended(st, now).value;
    var c := FromWizard(goals, milestones, g);
    IntendedGoalLoaded(goals, milestones, st, now);
    AddedMilestones(goals, milestones, g);
    var userGoals := Goals.UserGoals(AsGoals(c.goals));
    var all := AsMilestones(c.milestones);
    var added := AsMilestones(c.milestones[|milestones|..]);
    AddedAmongStored(milestones, c.milestones);
    var j :| 0 <= j < |userGoals| && userGoals[j] == AsGoal(c.goal);
    forall i | 0 <= i < |added|
      ensures added[i] in MyProgress.UserMilestonesById(userGoals, all)
    {
      assert added[i] == all[|milestones| + i];
      assert Num(userGoals[j].Id) == added[i].goalId;
    }
  }
}
