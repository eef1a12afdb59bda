/** The member compatibility scorer of the pod feed: a weighted sum of a coaching-style
    match (0.4), an availability match (0.3) and the goal-theme overlap (0.3). Scores are
    exact reals. */
module Compatibility {
  import opened Wrappers
  import opened Entities

  /** The coaching-style adjacency table; an unknown or missing style has no entry. */
  function CoachingPartners(style: Option<string>): seq<string> {
    match style
    case Some("gentle") => ["growth-focused"]
    case Some("growth-focused") => ["gentle", "direct"]
    case Some("direct") => ["growth-focused"]
    case _ => []
  }

  /** The availability adjacency table; an unknown or missing slot has no entry. */
  function AvailabilityPartners(slot: Option<string>): seq<string> {
    match slot
    case Some("morning") => ["flexible", "evening"]
    case Some("evening") => ["flexible", "morning"]
    case Some("flexible") => ["morning", "evening", "weekend"]
    case Some("weekend") => ["flexible"]
    case _ => []
  }

  /** `isCoachingCompatible(s1, s2)`: `s2` is listed for `s1`. */
  predicate CoachingCompatible(s1: Option<string>, s2: Option<string>) {
    s2.Some? && s2.value in CoachingPartners(s1)
  }

  /** `isAvailabilityCompatible(a1, a2)`: `a2` is listed for `a1`. */
  predicate AvailabilityCompatible(a1: Option<string>, a2: Option<string>) {
    a2.Some? && a2.value in AvailabilityPartners(a1)
  }

  predicate KnownStyle(s: Option<string>) {
    s == Some("gentle") || s == Some("growth-focused") || s == Some("direct")
  }

  predicate KnownSlot(a: Option<string>) {
    a == Some("morning") || a == Some("evening") || a == Some("flexible") || a == Some("weekend")
  }

  /** Both tables are symmetric and irreflexive; direct and gentle are not compatible;
      weekend pairs with flexible only; unknown values pair with nothing. */
  lemma CompatibilityTables(x: Option<string>, y: Option<string>)
    ensures CoachingCompatible(x, y) <==> CoachingCompatible(y, x)
    ensures AvailabilityCompatible(x, y) <==> AvailabilityCompatible(y, x)
    ensures !CoachingCompatible(x, x) && !AvailabilityCompatible(x, x)
    ensures !CoachingCompatible(Some("direct"), Some("gentle"))
    ensures AvailabilityCompatible(Some("weekend"), y) <==> y == Some("flexible")
    ensures CoachingCompatible(x, y) ==> KnownStyle(x) && KnownStyle(y)
    ensures AvailabilityCompatible(x, y) ==> KnownSlot(x) && KnownSlot(y)
  {}

  /** `userThemes.filter(t => memberThemes?.includes(t))`, with a missing member list
      keeping nothing. */
  function CommonThemes(themes: seq<string>, other: Option<seq<string>>): (r: seq<string>)
    ensures |r| <= |themes|
    ensures other.None? ==> r == []
    ensures forall x :: x in r ==> x in themes
    ensures other.Some? ==> forall x :: x in r ==> x in other.value
  {
    if themes == [] then []
    else
      (if other.Some? && themes[0] in other.value then [themes[0]] else [])
      + CommonThemes(themes[1..], other)
  }

  /** `themes?.length || 1`. */
  function LengthOrOne(themes: Option<seq<string>>): (n: nat)
    ensures n >= 1
  {
    if themes.None? || |themes.value| == 0 then 1 else |themes.value|
  }

  function Max(a: nat, b: nat): nat {
    if a >= b then a else b
  }

  function CoachingPart(u: Prefs, m: Prefs): real {
    if u.coachingStyle == m.coachingStyle then 0.4
    else if CoachingCompatible(u.coachingStyle, m.coachingStyle) then 0.28
    else 0.0
  }

  function AvailabilityPart(u: Prefs, m: Prefs): real {
    if u.availability == m.availability then 0.3
    else if AvailabilityCompatible(u.availability, m.availability) then 0.24
    else 0.0
  }

  /** The number of the user's themes found among the member's. */
  function CommonCount(u: Prefs, m: Prefs): nat {
    if u.goalThemes.None? then 0 else |CommonThemes(u.goalThemes.value, m.goalThemes)|
  }

  function ThemePart(u: Prefs, m: Prefs): real {
    var common := CommonCount(u, m);
    if common > 0 then
      0.3 * (common as real / Max(LengthOrOne(u.goalThemes), LengthOrOne(m.goalThemes)) as real)
    else 0.0
  }

  /** `calculateMemberCompatibility`: `null` when either record is missing; otherwise the
      three parts accumulate into `score`, their weights into `weight`, and the result is
      `score / weight`. The weights add up to exactly 1, so the division changes nothing
      and the score stays within [0, 1]. */
  function Score(user: Option<Prefs>, member: Option<Prefs>): (r: Option<real>)
    ensures r.None? <==> user.None? || member.None?
    ensures r.Some? ==> 0.0 <= r.value <= 1.0
    ensures r.Some? ==>
      r.value == CoachingPart(user.value, member.value) + AvailabilityPart(user.value, member.value)
                 + ThemePart(user.value, member.value)
  {
    if user.None? || member.None? then None
    else
      var u, m := user.value, member.value;
      var score := CoachingPart(u, m) + AvailabilityPart(u, m) + ThemePart(u, m);
      var weight := 0.4 + 0.3 + 0.3;
      ThemePartBounds(u, m);
      Some(if weight > 0.0 then score / weight else 0.0)
  }

  /** The names a plain object literal inherits from `Object.prototype`, and
      `__proto__`. Looking one of them up in an adjacency table finds a function or the
      prototype itself rather than a list, and that value has no `includes`. */
  const InheritedKeys: set<string> := {
    "constructor", "__proto__", "toString", "toLocaleString", "valueOf", "hasOwnProperty",
    "isPrototypeOf", "propertyIsEnumerable", "__defineGetter__", "__defineSetter__",
    "__lookupGetter__", "__lookupSetter__"}

  /** `table[key]?.includes(x)` throws a TypeError: the key names an inherited member. */
  predicate LookupThrows(key: Option<string>) {
    key.Some? && key.value in InheritedKeys
  }

  /** Scoring reaches a throwing lookup: a table is consulted only when the two values
      differ, and always with the user's value as the key. */
  predicate ScoreThrows(u: Prefs, m: Prefs) {
    || (u.coachingStyle != m.coachingStyle && LookupThrows(u.coachingStyle))
    || (u.availability != m.availability && LookupThrows(u.availability))
  }

  /** `calculateMemberCompatibility` with its error path: it throws exactly when one of
      the table lookups reaches an inherited member; otherwise it returns what `Score`
      describes. */
  function ScoreChecked(user: Option<Prefs>, member: Option<Prefs>): (r: Result<Option<real>>)
    ensures r.Failure? <==> user.Some? && member.Some? && ScoreThrows(user.value, member.value)
    ensures r.Failure? ==> r.error == "TypeError: includes is not a function"
    ensures r.Success? ==> r.value == Score(user, member)
    ensures r.Success? && r.value.Some? ==> 0.0 <= r.value.value <= 1.0
  {
    if user.Some? && member.Some? && ScoreThrows(user.value, member.value) then
      Failure("TypeError: includes is not a function")
    else Success(Score(user, member))
  }

  /** A coaching style named like an inherited member throws where the tables would
      suggest a plain mismatch. */
  lemma ConstructorStyleThrows()
    ensures var u, m := Prefs(Some("constructor"), None, None), Prefs(Some("gentle"), None, None);
      && ScoreChecked(Some(u), Some(m)).Failure?
      && Score(Some(u), Some(m)) == Some(0.3)
      && !CoachingCompatible(Some("constructor"), Some("gentle"))
  {
    var u, m := Prefs(Some("constructor"), None, None), Prefs(Some("gentle"), None, None);
    assert CommonCount(u, m) == 0;
  }

  lemma ThemePartBounds(u: Prefs, m: Prefs)
    ensures 0.0 <= ThemePart(u, m) <= 0.3
  {
    var common := CommonCount(u, m);
    if common > 0 {
      var d := Max(LengthOrOne(u.goalThemes), LengthOrOne(m.goalThemes));
      assert common <= d;
      assert common as real / d as real <= 1.0;
    }
  }

  lemma RealDivSelf(x: real)
    requires x > 0.0
    ensures x / x == 1.0
  {}

  /** A theme list filtered by itself keeps every entry. */
  lemma {:induction false} CommonWithSelf(themes: seq<string>, all: seq<string>)
    requires forall i :: 0 <= i < |themes| ==> themes[i] in all
    ensures CommonThemes(themes, Some(all)) == themes
  {
    if themes != [] {
      CommonWithSelf(themes[1..], all);
    }
  }

  /** Identical preferences with at least one theme score exactly 1. */
  lemma IdenticalPrefsScoreOne(p: Prefs)
    requires p.goalThemes.Some? && |p.goalThemes.value| > 0
    ensures Score(Some(p), Some(p)) == Some(1.0)
  {
    var ts := p.goalThemes.value;
    CommonWithSelf(ts, ts);
    assert CommonCount(p, p) == |ts|;
    RealDivSelf(|ts| as real);
    assert ThemePart(p, p) == 0.3;
  }

  /** Identical preferences without themes on either side score 0.7: the theme part is lost. */
  lemma IdenticalPrefsWithoutThemesScoreSevenTenths(p: Prefs)
    requires p.goalThemes.None? || p.goalThemes.value == []
    ensures Score(Some(p), Some(p)) == Some(0.7)
  {}

  predicate NoDuplicates(s: seq<string>) {
    forall i, j :: 0 <= i < j < |s| ==> s[i] != s[j]
  }

  function Elements(s: seq<string>): set<string> {
    set x | x in s
  }

  /** Without duplicates, the kept themes are exactly the shared ones. */
  lemma {:induction false} CommonCountIsIntersection(themes: seq<string>, other: seq<string>)
    requires NoDuplicates(themes)
    ensures |CommonThemes(themes, Some(other))| == |Elements(themes) * Elements(other)|
  {
    if themes == [] {
      assert Elements(themes) * Elements(other) == {};
    } else {
      var h, rest := themes[0], themes[1..];
      NoDuplicatesTail(themes);
      CommonCountIsIntersection(rest, other);
      CommonCountCons(themes, other);
      ElementsCons(themes);
      IntersectWithNew(h, Elements(rest), Elements(other));
    }
  }

  /** The kept count of a non-empty list is its tail's count plus one when the head is kept. */
  lemma CommonCountCons(themes: seq<string>, other: seq<string>)
    requires themes != []
    ensures |CommonThemes(themes, Some(other))|
      == |CommonThemes(themes[1..], Some(other))| + (if themes[0] in other then 1 else 0)
  {
    assert CommonThemes(themes, Some(other))
      == (if themes[0] in other then [themes[0]] else []) + CommonThemes(themes[1..], Some(other));
  }

  /** The elements of a non-empty list are its head and the elements of its tail. */
  lemma ElementsCons(themes: seq<string>)
    requires themes != []
    ensures Elements(themes) == {themes[0]} + Elements(themes[1..])
  {
    assert themes == [themes[0]] + themes[1..];
  }

  /** Dropping the head of a list without duplicates leaves a list without duplicates that
      no longer holds the head. */
  lemma NoDuplicatesTail(themes: seq<string>)
    requires themes != [] && NoDuplicates(themes)
    ensures NoDuplicates(themes[1..]) && themes[0] !in Elements(themes[1..])
  {
    var rest := themes[1..];
    forall i, j | 0 <= i < j < |rest|
      ensures rest[i] != rest[j]
    {
      assert rest[i] == themes[i + 1] && rest[j] == themes[j + 1];
    }
    forall k | 0 <= k < |rest|
      ensures rest[k] != themes[0]
    {
      assert rest[k] == themes[k + 1];
    }
  }

  /** Adding a new element to one side of an intersection adds it to the intersection
      exactly when the other side holds it. */
  lemma IntersectWithNew(h: string, a: set<string>, b: set<string>)
    requires h !in a
    ensures |({h} + a) * b| == |a * b| + (if h in b then 1 else 0)
  {
    if h in b {
      assert ({h} + a) * b == {h} + a * b;
    } else {
      assert ({h} + a) * b == a * b;
    }
  }

  /** The score does not depend on the argument order when neither theme list repeats a theme. */
  lemma ScoreSymmetric(a: Prefs, b: Prefs)
    requires a.goalThemes.Some? ==> NoDuplicates(a.goalThemes.value)
    requires b.goalThemes.Some? ==> NoDuplicates(b.goalThemes.value)
    ensures Score(Some(a), Some(b)) == Score(Some(b), Some(a))
  {
    CompatibilityTables(a.coachingStyle, b.coachingStyle);
    CompatibilityTables(a.availability, b.availability);
    if a.goalThemes.Some? && b.goalThemes.Some? {
      CommonCountIsIntersection(a.goalThemes.value, b.goalThemes.value);
      CommonCountIsIntersection(b.goalThemes.value, a.goalThemes.value);
      assert Elements(a.goalThemes.value) * Elements(b.goalThemes.value)
          == Elements(b.goalThemes.value) * Elements(a.goalThemes.value);
    }
    assert ThemePart(a, b) == ThemePart(b, a);
  }

  /** A repeated theme breaks symmetry: ["fitness", "fitness"] against ["fitness"] gives a
      theme part of 0.3 one way and 0.15 the other. */
  lemma DuplicateThemesBreakSymmetry()
    ensures var a := Prefs(None, None, Some(["fitness", "fitness"]));
            var b := Prefs(None, None, Some(["fitness"]));
            ThemePart(a, b) == 0.3 && ThemePart(b, a) == 0.15
  {
    var a := Prefs(None, None, Some(["fitness", "fitness"]));
    var b := Prefs(None, None, Some(["fitness"]));
    assert CommonThemes(["fitness", "fitness"], Some(["fitness"])) == ["fitness", "fitness"];
    assert CommonThemes(["fitness"], Some(["fitness", "fitness"])) == ["fitness"];
  }

  /** The current user of the feed against a gentle, morning, fitness member:
      0.28 + 0.24 + 0.15 = 0.67. */
  lemma WorkedExample()
    ensures Score(Some(Prefs(Some("growth-focused"), Some("flexible"), Some(["fitness", "habit-building"]))),
                  Some(Prefs(Some("gentle"), Some("morning"), Some(["fitness"])))) == Some(0.67)
  {
    assert CommonThemes(["fitness", "habit-building"], Some(["fitness"])) == ["fitness"];
  }

  /** The badge text for a score: none when the score is `null`. */
  function MatchLabel(score: Option<real>): (r: Option<string>)
    ensures r.None? <==> score.None?
    ensures score.Some? && score.value >= 0.8 ==> r == Some("Great Match")
    ensures score.Some? && 0.6 <= score.value < 0.8 ==> r == Some("Good Match")
    ensures score.Some? && score.value < 0.6 ==> r == Some("Compatible")
  {
    match score
    case None => None
    case Some(s) => Some(if s >= 0.8 then "Great Match" else if s >= 0.6 then "Good Match" else "Compatible")
  }

  /** Identical preferences are a "Great Match" with themes and a "Good Match" without. */
  lemma IdenticalPrefsLabels(p: Prefs)
    ensures p.goalThemes.Some? && |p.goalThemes.value| > 0 ==>
      MatchLabel(Score(Some(p), Some(p))) == Some("Great Match")
    ensures p.goalThemes.None? || p.goalThemes.value == [] ==>
      MatchLabel(Score(Some(p), Some(p))) == Some("Good Match")
  {
    if p.goalThemes.Some? && |p.goalThemes.value| > 0 {
      IdenticalPrefsScoreOne(p);
    } else {
      IdenticalPrefsWithoutThemesScoreSevenTenths(p);
    }
  }

  /** The badge's rank: Compatible, then Good Match, then Great Match. */
  function LabelRank(badge: Option<string>): int {
    match badge
    case Some("Great Match") => 2
    case Some("Good Match") => 1
    case Some(_) => 0
    case None => -1
  }

  /** A higher score never earns a lesser badge, and the badge only changes at 0.6 and 0.8. */
  lemma MatchLabelMonotone(s: real, t: real)
    requires s <= t
    ensures LabelRank(MatchLabel(Some(s))) <= LabelRank(MatchLabel(Some(t)))
    ensures LabelRank(MatchLabel(Some(s))) < LabelRank(MatchLabel(Some(t))) ==>
      (s < 0.6 <= t) || (s < 0.8 <= t)
  {}
}
