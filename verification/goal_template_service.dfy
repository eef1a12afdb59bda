/** Goal templates and their conversion into the wizard's goal shape. The template
    store's getAll/getById/create/update/delete are the shared keyed store
    (`KeyedStore` with `Services.TemplateEntity`); what is specific is `convertToGoal`. */
module GoalTemplateService {
  import opened Wrappers
  import opened Entities
  import GoalWizard

  datatype TemplateMilestone = TemplateMilestone(title: string, description: string, order: int, estimatedDays: int)

  datatype Template = Template(
    Id: int,
    title: string,
    description: string,
    category: string,
    difficulty: string,
    estimatedDuration: string,
    tags: seq<string>,
    milestones: seq<TemplateMilestone>)

  /** The caller's overrides; `targetDate` is a `Date`, given as its instant in milliseconds. */
  datatype Customizations = Customizations(title: Option<string>, description: Option<string>, targetDate: Option<int>)

  const NoCustomizations := Customizations(None, None, None)

  /** The goal `convertToGoal` returns. `targetDay` is the date part of the ISO string,
      as a day count since 1970-01-01 (UTC). */
  datatype ConvertedGoal = ConvertedGoal(
    title: string,
    description: string,
    category: string,
    targetDay: int,
    milestones: seq<GoalWizard.MilestoneDraft>)

  /** The default horizon, in days, for an estimated duration. */
  function DurationDays(estimatedDuration: string): (days: int)
    ensures estimatedDuration in ["2 months", "4 months", "6 months", "8 months", "10 months"]
      <==> days != 365
    ensures 60 <= days <= 365
  {
    if estimatedDuration == "2 months" then 60
    else if estimatedDuration == "4 months" then 120
    else if estimatedDuration == "6 months" then 180
    else if estimatedDuration == "8 months" then 240
    else if estimatedDuration == "10 months" then 300
    else 365
  }

  /** Every recognised duration reads as thirty-day months. */
  lemma DurationIsThirtyDayMonths(months: int)
    requires months in {2, 4, 6, 8, 10}
    ensures DurationDays(MonthsText(months)) == 30 * months
  {}

  function MonthsText(months: int): string
    requires months in {2, 4, 6, 8, 10}
  {
    if months == 2 then "2 months" else if months == 4 then "4 months" else if months == 6 then "6 months"
    else if months == 8 then "8 months" else "10 months"
  }

  /** The UTC calendar day of an instant: what `toISOString().split('T')[0]` names. */
  function DayOf(instant: int): int {
    instant / DayMs
  }

  /** Adding whole days moves the calendar day by exactly that many days. */
  lemma DayOfShift(instant: int, days: int)
    ensures DayOf(instant + days * DayMs) == DayOf(instant) + days
  {
    var q := instant / DayMs;
    var m := instant % DayMs;
    assert instant + days * DayMs == (q + days) * DayMs + m;
  }

  function ConvertMilestones(ms: seq<TemplateMilestone>, now: int): (r: seq<GoalWizard.MilestoneDraft>)
    ensures |r| == |ms|
    ensures forall i :: 0 <= i < |ms| ==>
      && r[i].title == ms[i].title && r[i].description == ms[i].description
      && r[i].order == ms[i].order
      && r[i].dueDate - now == ms[i].estimatedDays * DayMs
  {
    seq(|ms|, i requires 0 <= i < |ms| =>
      GoalWizard.MilestoneDraft(ms[i].title, ms[i].description, ms[i].order, now + ms[i].estimatedDays * DayMs))
  }

  /** `convertToGoal(template, customizations)` at the clock reading `now`: truthy overrides
      win for title and description, the category always comes from the template, and
      without an override the target day lies the duration's number of days after today. */
  function ConvertToGoal(t: Template, c: Customizations, now: int): (r: ConvertedGoal)
    ensures r.title == (if c.title.Some? && c.title.value != "" then c.title.value else t.title)
    ensures r.description == (if c.description.Some? && c.description.value != "" then c.description.value else t.description)
    ensures r.category == t.category
    ensures c.targetDate.Some? ==> r.targetDay == DayOf(c.targetDate.value)
    ensures c.targetDate.None? ==> r.targetDay == DayOf(now) + DurationDays(t.estimatedDuration)
    ensures |r.milestones| == |t.milestones|
    ensures forall i :: 0 <= i < |t.milestones| ==>
      && r.milestones[i].title == t.milestones[i].title
      && r.milestones[i].order == t.milestones[i].order
      && r.milestones[i].dueDate == now + t.milestones[i].estimatedDays * DayMs
  {
    var target := if c.targetDate.Some? then c.targetDate.value else now + DurationDays(t.estimatedDuration) * DayMs;
    DayOfShift(now, DurationDays(t.estimatedDuration));
    ConvertedGoal(
      if c.title.Some? && c.title.value != "" then c.title.value else t.title,
      if c.description.Some? && c.description.value != "" then c.description.value else t.description,
      t.category,
      DayOf(target),
      ConvertMilestones(t.milestones, now))
  }

  /** Milestones listed in increasing estimated days come out with increasing due dates,
      and a milestone estimated within the template's duration falls due no later than
      the default target day. */
  lemma ConvertedScheduleOrdered(t: Template, now: int)
    requires forall i, j :: 0 <= i < j < |t.milestones| ==> t.milestones[i].estimatedDays < t.milestones[j].estimatedDays
    ensures var g := ConvertToGoal(t, NoCustomizations, now);
      && (forall i, j :: 0 <= i < j < |g.milestones| ==> g.milestones[i].dueDate < g.milestones[j].dueDate)
      && (forall i :: 0 <= i < |g.milestones| && t.milestones[i].estimatedDays <= DurationDays(t.estimatedDuration)
            ==> DayOf(g.milestones[i].dueDate) <= g.targetDay)
  {
    var g := ConvertToGoal(t, NoCustomizations, now);
    forall i | 0 <= i < |g.milestones| && t.milestones[i].estimatedDays <= DurationDays(t.estimatedDuration)
      ensures DayOf(g.milestones[i].dueDate) <= g.targetDay
    {
      DayOfShift(now, t.milestones[i].estimatedDays);
    }
    forall i, j | 0 <= i < j < |g.milestones|
      ensures g.milestones[i].dueDate < g.milestones[j].dueDate
    {
      var a := t.milestones[i].estimatedDays;
      var b := t.milestones[j].estimatedDays;
      assert a * DayMs < b * DayMs;
    }
  }
}
