/** A goal's card on the Goals page: the progress ring over its milestones, the
    category icon and badge colour (matched case-insensitively), the completed/total
    caption and the status badge. */
module GoalCard {
  import opened Js
  import opened Seqs
  import opened Entities
  import MyProgress
  import GoalTemplateBrowser

  /** The categories the card knows by name, in lower case. */
  const KnownCategories: seq<string> := ["personal", "professional", "health", "education"]

  /** The ring's value: completed milestones over all of them, times 100, as an exact
      quotient; 0 for a goal with no milestones. */
  function Progress(milestones: seq<Milestone>): (p: real)
    ensures 0.0 <= p <= 100.0
    ensures p == 100.0 <==> milestones != [] && forall i :: 0 <= i < |milestones| ==> milestones[i].completed
    ensures p == 0.0 <==> forall i :: 0 <= i < |milestones| ==> !milestones[i].completed
  {
    var c := Count(milestones, MyProgress.IsDone);
    var t := |milestones|;
    MyProgress.NoneKeptIffNoneHolds(milestones, MyProgress.IsDone);
    if t == 0 then 0.0
    else
      AllKeptIffFull(milestones, MyProgress.IsDone);
      RatioBounds(c, t);
      c as real / t as real * 100.0
  }

  /** `c / t * 100` for `0 <= c <= t`: within [0, 100], 100 only for `c == t`, 0 only for
      `c == 0`, and equal to the quotient `100 c / t`. */
  lemma RatioBounds(c: nat, t: nat)
    requires 0 <= c <= t && t > 0
    ensures var p := c as real / t as real * 100.0;
      && p == (100 * c) as real / t as real
      && 0.0 <= p <= 100.0
      && (p == 100.0 <==> c == t)
      && (p == 0.0 <==> c == 0)
  {
    var q := c as real / t as real;
    assert q * t as real == c as real;
    assert q == 1.0 <==> c == t;
    assert q <= 1.0;
  }

  /** The filter keeps everything exactly when every element satisfies the predicate. */
  lemma AllKeptIffFull<T>(s: seq<T>, p: T -> bool)
    ensures |Filter(s, p)| == |s| <==> forall i :: 0 <= i < |s| ==> p(s[i])
  {
    if forall i :: 0 <= i < |s| ==> p(s[i]) {
      FilterAll(s, p);
    } else {
      var i :| 0 <= i < |s| && !p(s[i]);
      FilterMissing(s, p, i);
    }
  }

  /** Leaving out an element the predicate rejects makes the filter shorter than the
      sequence. */
  lemma {:induction false} FilterMissing<T>(s: seq<T>, p: T -> bool, i: int)
    requires 0 <= i < |s| && !p(s[i])
    ensures |Filter(s, p)| < |s|
  {
    assert s == s[..i] + [s[i]] + s[i + 1..];
    FilterSplice(s[..i], s[i], s[i + 1..], p);
  }

  /** The ring and the My Progress completion card agree: rounding the ring's value to
      the nearest integer gives that card's percentage. */
  lemma RingRoundsToCompletionRate(milestones: seq<Milestone>)
    requires milestones != []
    ensures (Progress(milestones) + 0.5).Floor == MyProgress.CompletionRate(milestones)
  {
    var c := Count(milestones, MyProgress.IsDone);
    RatioBounds(c, |milestones|);
  }

  /** `getCategoryIcon`: the icon of the lower-cased category. */
  function CategoryIcon(category: string): (icon: string)
    ensures icon == "Target" <==> ToLower(category) !in KnownCategories
    ensures icon == GoalTemplateBrowser.CategoryIcon(ToLower(category))
  {
    match ToLower(category)
    case "personal" => "User"
    case "professional" => "Briefcase"
    case "health" => "Heart"
    case "education" => "GraduationCap"
    case _ => "Target"
  }

  /** `getCategoryColor`: the badge colour of the lower-cased category. */
  function CategoryColor(category: string): (colour: string)
    ensures colour == "default" <==> ToLower(category) !in KnownCategories
    ensures ToLower(category) == "personal" ==> colour == "primary"
    ensures ToLower(category) == "professional" ==> colour == "secondary"
    ensures ToLower(category) == "health" ==> colour == "success"
    ensures ToLower(category) == "education" ==> colour == "accent"
  {
    match ToLower(category)
    case "personal" => "primary"
    case "professional" => "secondary"
    case "health" => "success"
    case "education" => "accent"
    case _ => "default"
  }

  /** Lower-casing commutes with upper-casing away: `ToLower(ToUpper(s)) == ToLower(s)`. */
  lemma LowerOfUpper(s: string)
    ensures ToLower(ToUpper(s)) == ToLower(s)
  {
    forall i | 0 <= i < |s|
      ensures ToLower(ToUpper(s))[i] == ToLower(s)[i]
    {
      assert ToUpper(s)[i] == UpperChar(s[i]);
    }
  }

  /** The icon and the colour ignore case: `Health`, `HEALTH` and `health` look alike. */
  lemma CategoryCaseInsensitive(category: string)
    ensures CategoryIcon(ToUpper(category)) == CategoryIcon(category)
    ensures CategoryColor(ToUpper(category)) == CategoryColor(category)
    ensures CategoryIcon(ToLower(category)) == CategoryIcon(category)
    ensures CategoryColor(ToLower(category)) == CategoryColor(category)
  {
    LowerOfUpper(category);
    LowerIdempotent(category);
  }

  lemma LowerIdempotent(s: string)
    ensures ToLower(ToLower(s)) == ToLower(s)
  {}

  /** Two different known categories get different icons and different colours. */
  lemma KnownCategoriesDistinct(a: string, b: string)
    requires ToLower(a) in KnownCategories && ToLower(b) in KnownCategories
    requires ToLower(a) != ToLower(b)
    ensures CategoryIcon(a) != CategoryIcon(b)
    ensures CategoryColor(a) != CategoryColor(b)
  {}

  /** What the card shows for a goal and its milestones. */
  datatype Card = Card(
    icon: string,
    colour: string,
    progress: real,
    completed: nat,
    total: nat,
    statusBadge: string)

  function Render(goal: Goal, milestones: seq<Milestone>): (c: Card)
    ensures c.completed <= c.total == |milestones|
    ensures c.progress == 100.0 <==> c.total > 0 && c.completed == c.total
    ensures c.progress == 0.0 <==> c.completed == 0
    ensures c.statusBadge == "success" <==> goal.status == "active"
    ensures c.statusBadge == "default" <==> goal.status != "active"
    ensures c.icon == "Target" <==> c.colour == "default"
    ensures c.icon == CategoryIcon(goal.category) && c.colour == CategoryColor(goal.category)
    ensures c.completed == Count(milestones, MyProgress.IsDone)
    ensures c.progress == Progress(milestones)
  {
    var done := Count(milestones, MyProgress.IsDone);
    AllKeptIffFull(milestones, MyProgress.IsDone);
    MyProgress.NoneKeptIffNoneHolds(milestones, MyProgress.IsDone);
    Card(
      CategoryIcon(goal.category),
      CategoryColor(goal.category),
      Progress(milestones),
      done,
      |milestones|,
      if goal.status == "active" then "success" else "default")
  }
}
