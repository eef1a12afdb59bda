/** The three-step goal wizard: details (title, description, target date), category,
    then generated milestones and "Create Goal". A disabled button is a no-op here, and
    each input is only on screen at its own step, so an edit elsewhere is a no-op too. */
module GoalWizard {
  import opened Wrappers
  import opened Entities

  /** A generated milestone; `dueDate` is the instant in milliseconds. */
  datatype MilestoneDraft = MilestoneDraft(title: string, description: string, order: int, dueDate: int)

  datatype Form = Form(
    title: string,
    description: string,
    category: string,
    targetDate: string,
    milestones: seq<MilestoneDraft>)

  datatype State = State(step: int, form: Form)

  const StepCount: int := 3

  const Init: State := State(1, Form("", "", "", "", []))

  /** The ids of the four category buttons. */
  const CategoryIds: seq<string> := ["personal", "professional", "health", "education"]

  /** The mock generator's offsets, in days from now. */
  const DueOffsets: seq<int> := [7, 14, 21, 35, 49]

  const MilestoneTitles: seq<string> := [
    "Define clear objectives", "Create action plan", "Gather necessary resources",
    "Execute first phase", "Review and adjust"]

  const MilestoneDescriptions: seq<string> := [
    "Break down your goal into specific, measurable objectives.",
    "Develop a detailed step-by-step plan to achieve your objectives.",
    "Identify and collect all tools, information, and support needed.",
    "Begin implementing your plan with the first set of actions.",
    "Evaluate progress and make necessary adjustments to your approach."]

  /** `generateMilestones`' list for the clock reading `now`: five milestones numbered
      1 to 5, due one, two, three, five and seven weeks out. */
  function GenerateMilestones(now: int): (r: seq<MilestoneDraft>)
    ensures |r| == 5
    ensures forall i :: 0 <= i < 5 ==> r[i].order == i + 1
    ensures forall i :: 0 <= i < 5 ==> r[i].dueDate == now + DueOffsets[i] * DayMs
    ensures forall i, j :: 0 <= i < j < 5 ==> r[i].dueDate < r[j].dueDate
    ensures forall i :: 0 <= i < 5 ==> r[i].dueDate > now
  {
    seq(5, i requires 0 <= i < 5 =>
      MilestoneDraft(MilestoneTitles[i], MilestoneDescriptions[i], i + 1, now + DueOffsets[i] * DayMs))
  }

  /** The wizard's inputs: the footer buttons and the form fields. */
  datatype Action =
    | Previous
    | Next
    | Generate(now: int)
    | EditTitle(title: string)
    | EditDescription(description: string)
    | EditTargetDate(targetDate: string)
    | PickCategory(index: int)

  /** Whether the button or field behind an action is on screen and enabled. */
  predicate Enabled(st: State, a: Action) {
    match a
    case Previous => st.step != 1
    case Next => st.step < StepCount && st.step != 2 && !(st.step == 1 && (st.form.title == "" || st.form.targetDate == ""))
    case Generate(_) => st.step == 2 && st.form.category != ""
    case EditTitle(_) => st.step == 1
    case EditDescription(_) => st.step == 1
    case EditTargetDate(_) => st.step == 1
    case PickCategory(i) => st.step == 2 && 0 <= i < |CategoryIds|
  }

  function Max(a: int, b: int): int { if a < b then b else a }
  function Min(a: int, b: int): int { if a < b then a else b }

  /** One input applied to the wizard. */
  function Step(st: State, a: Action): (r: State)
    ensures !Enabled(st, a) ==> r == st
    ensures a.Previous? && Enabled(st, a) ==> r == st.(step := Max(1, st.step - 1))
    ensures a.Next? && Enabled(st, a) ==> r == st.(step := Min(StepCount, st.step + 1))
    ensures a.Generate? && Enabled(st, a) ==>
      r.step == 3 && r.form == st.form.(milestones := GenerateMilestones(a.now))
    ensures r.step != st.step ==> a.Previous? || a.Next? || a.Generate?
    ensures r.form != st.form ==> !a.Previous? && !a.Next?
  {
    if !Enabled(st, a) then st
    else match a
      case Previous => st.(step := Max(1, st.step - 1))
      case Next => st.(step := Min(StepCount, st.step + 1))
      case Generate(now) => State(3, st.form.(milestones := GenerateMilestones(now)))
      case EditTitle(t) => st.(form := st.form.(title := t))
      case EditDescription(d) => st.(form := st.form.(description := d))
      case EditTargetDate(d) => st.(form := st.form.(targetDate := d))
      case PickCategory(i) => st.(form := st.form.(category := CategoryIds[i]))
  }

  /** The goal handed to `onComplete`; `createdAt` is the submit instant, whose decimal
      string is the goal's lowercase `id` (the ISO `createdDate` is left opaque). */
  datatype GoalData = GoalData(
    title: string,
    description: string,
    category: string,
    targetDate: string,
    milestones: seq<MilestoneDraft>,
    createdAt: int,
    userId: string,
    status: string)

  /** `handleSubmit` as written: refused when a required field is empty, otherwise the
      form plus status 'active' and the fixed owner 'user1'. */
  function Submit(st: State, now: int): (r: Option<GoalData>)
    ensures r.None? <==> st.form.title == "" || st.form.category == "" || st.form.targetDate == ""
    ensures r.Some? ==>
      && r.value.title == st.form.title && r.value.description == st.form.description
      && r.value.category == st.form.category && r.value.targetDate == st.form.targetDate
      && r.value.milestones == st.form.milestones
      && r.value.status == "active" && r.value.userId == "user1"
  {
    if st.form.title == "" || st.form.category == "" || st.form.targetDate == "" then None
    else Some(GoalData(st.form.title, st.form.description, st.form.category, st.form.targetDate,
                       st.form.milestones, now, "user1", "active"))
  }

  /** The evidently intended submit: the same goal, owned by the signed-in user '1', the
      owner every page filters on. */
  function SubmitIntended(st: State, now: int): (r: Option<GoalData>)
    ensures r.None? <==> Submit(st, now).None?
    ensures r.Some? ==> r.value == Submit(st, now).value.(userId := "1")
  {
    match Submit(st, now)
    case None => None
    case Some(g) => Some(g.(userId := "1"))
  }

  // ---------------------------------------------------------------- reachable states

  /** What holds of every state the wizard can reach from its start. */
  predicate Inv(st: State) {
    && 1 <= st.step <= StepCount
    && (st.step >= 2 ==> st.form.title != "" && st.form.targetDate != "")
    && (st.step == 3 ==> st.form.category != "" && |st.form.milestones| == 5)
    && (st.form.category == "" || st.form.category in CategoryIds)
  }

  function Run(st: State, actions: seq<Action>): State
    decreases |actions|
  {
    if actions == [] then st else Run(Step(st, actions[0]), actions[1..])
  }

  lemma InitInv()
    ensures Inv(Init)
    ensures Init.step == 1 && Init.form.milestones == []
  {}

  /** Every enabled input keeps the invariant. */
  lemma StepKeepsInv(st: State, a: Action)
    requires Inv(st)
    ensures Inv(Step(st, a))
  {}

  lemma {:induction false} RunKeepsInv(st: State, actions: seq<Action>)
    requires Inv(st)
    ensures Inv(Run(st, actions))
    decreases |actions|
  {
    if actions != [] {
      StepKeepsInv(st, actions[0]);
      RunKeepsInv(Step(st, actions[0]), actions[1..]);
    }
  }

  /** Step 3 is entered only through Generate Milestones, which needs a category. */
  lemma OnlyGenerateEntersStepThree(st: State, a: Action)
    requires Inv(st) && st.step != 3 && Step(st, a).step == 3
    ensures a.Generate? && st.step == 2 && st.form.category != ""
  {}

  /** Whatever the user does, the wizard's final step accepts the goal: the guard in
      `handleSubmit` never fires in a reachable state. */
  lemma ReachableSubmitAccepted(actions: seq<Action>, now: int)
    requires Run(Init, actions).step == 3
    ensures Submit(Run(Init, actions), now).Some?
    ensures |Submit(Run(Init, actions), now).value.milestones| == 5
  {
    InitInv();
    RunKeepsInv(Init, actions);
  }

  /** Starting fresh, the shortest path to an accepted goal. */
  lemma HappyPath(now: int)
    ensures var st := Run(Init, [EditTitle("Run 10k"), EditTargetDate("2026-12-31"), Next, PickCategory(2), Generate(now)]);
      st.step == 3 && Submit(st, now).Some? && Submit(st, now).value.category == "health"
  {
    var s1 := Step(Init, EditTitle("Run 10k"));
    var s2 := Step(s1, EditTargetDate("2026-12-31"));
    var s3 := Step(s2, Next);
    var s4 := Step(s3, PickCategory(2));
    assert s4.step == 2 && s4.form.category == "health";
    var s5 := Step(s4, Generate(now));
    var acts := [EditTitle("Run 10k"), EditTargetDate("2026-12-31"), Next, PickCategory(2), Generate(now)];
    assert Run(s5, []) == s5;
    assert Run(s4, acts[4..]) == s5;
    assert Run(s3, acts[3..]) == Run(s4, acts[4..]);
    assert Run(s2, acts[2..]) == Run(s3, acts[3..]);
    assert Run(s1, acts[1..]) == Run(s2, acts[2..]);
    assert Run(Init, acts) == Run(s1, acts[1..]);
  }
}
