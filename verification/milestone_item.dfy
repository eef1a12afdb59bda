/** One milestone's row: whether it is overdue, the row's colouring (completed before
    overdue before plain), the Overdue badge, and the key its check button hands to the
    toggle handler. */
module MilestoneItem {
  import opened Js
  import opened Entities

  /** Due before `now` (milliseconds) and not yet completed. */
  predicate IsOverdue(m: Milestone, now: int) {
    m.dueDate < now && !m.completed
  }

  /** The row's colouring: success, error, or the plain white row. */
  datatype Tone = Done | Late | Plain

  function RowTone(m: Milestone, now: int): (t: Tone)
    ensures t == Done <==> m.completed
    ensures t == Late <==> IsOverdue(m, now)
    ensures t == Plain <==> !m.completed && now <= m.dueDate
  {
    if m.completed then Done
    else if IsOverdue(m, now) then Late
    else Plain
  }

  /** What the row shows besides its title and step number. */
  datatype Row = Row(tone: Tone, checked: bool, dateInError: bool, overdueBadge: bool, toggleKey: Value)

  function Render(m: Milestone, now: int): (r: Row)
    ensures r.overdueBadge <==> r.tone == Late
    ensures r.dateInError <==> r.overdueBadge
    ensures r.checked <==> r.tone == Done
    ensures !(r.checked && r.overdueBadge)
    ensures r.toggleKey == Num(m.Id)
  {
    var late := IsOverdue(m, now);
    Row(RowTone(m, now), m.completed, late, late, Num(m.Id))
  }

  /** Once overdue, a milestone stays overdue as time passes until it is completed. */
  lemma OverdueStaysOverdue(m: Milestone, now: int, later: int)
    requires IsOverdue(m, now) && now <= later
    ensures RowTone(m, later) == Late
    ensures Render(m, later).overdueBadge
  {}

  /** Completing a milestone clears its badge and its error colouring at every instant;
      reopening it brings them back exactly when its due date has passed. */
  lemma CompletingClearsOverdue(m: Milestone, now: int)
    ensures !Render(m.(completed := true), now).overdueBadge
    ensures RowTone(m.(completed := true), now) == Done
    ensures Render(m.(completed := false), now).overdueBadge <==> m.dueDate < now
  {}
}
