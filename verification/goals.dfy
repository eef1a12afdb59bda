/** The Goals page: the signed-in user's goals, the status and category filters, the
    distinct category list, the status counts and success rate. */
module Goals {
  import opened Js
  import opened Seqs
  import opened Arith
  import opened Entities

  /** The signed-in user's key as the goal records carry it: `currentUser.Id.toString()`. */
  const OwnerKey: Value := Str("1")

  function OwnedBy(key: Value): Goal -> bool {
    (g: Goal) => g.userId == key
  }

  /** `goalsData.filter(goal => goal.userId === '1')`. */
  function UserGoals(goals: seq<Goal>): (r: seq<Goal>)
    ensures Subseq(r, goals)
    ensures forall i :: 0 <= i < |r| ==> r[i].userId == OwnerKey && r[i] in goals
    ensures forall i :: 0 <= i < |goals| && goals[i].userId == OwnerKey ==> goals[i] in r
  {
    FilterSubseq(goals, OwnedBy(OwnerKey));
    Filter(goals, OwnedBy(OwnerKey))
  }

  const All: string := "all"

  predicate Matches(status: string, category: string, g: Goal) {
    (status == All || g.status == status) && (category == All || g.category == category)
  }

  function Selection(status: string, category: string): Goal -> bool {
    (g: Goal) => Matches(status, category, g)
  }

  /** `filteredGoals`. */
  function FilteredGoals(goals: seq<Goal>, status: string, category: string): (r: seq<Goal>)
    ensures Subseq(r, goals)
    ensures forall i :: 0 <= i < |r| ==> r[i] in goals && Matches(status, category, r[i])
    ensures forall i :: 0 <= i < |goals| && Matches(status, category, goals[i]) ==> goals[i] in r
    ensures status == All && category == All ==> r == goals
  {
    FilterSubseq(goals, Selection(status, category));
    NoSelectionKeepsAll(goals, status, category);
    Filter(goals, Selection(status, category))
  }

  lemma NoSelectionKeepsAll(goals: seq<Goal>, status: string, category: string)
    ensures status == All && category == All ==> Filter(goals, Selection(status, category)) == goals
  {
    if status == All && category == All {
      FilterAll(goals, Selection(status, category));
    }
  }

  // ---------------------------------------------------------------- distinct categories

  /** Position of the first occurrence of `x` in `s`. */
  function FirstIndex(s: seq<string>, x: string): (k: nat)
    requires x in s
    ensures k < |s| && s[k] == x && x !in s[..k]
  {
    if s[0] == x then 0
    else
      var k := FirstIndex(s[1..], x);
      assert s[..k + 1] == [s[0]] + s[1..][..k];
      k + 1
  }

  lemma {:induction false} FirstIndexAppend(p: seq<string>, x: string, y: string)
    requires y in p
    ensures FirstIndex(p + [x], y) == FirstIndex(p, y)
  {
    if p[0] != y {
      assert (p + [x])[1..] == p[1..] + [x];
      FirstIndexAppend(p[1..], x, y);
    }
  }

  lemma FirstIndexAppendAll(p: seq<string>, x: string)
    ensures forall y :: y in p ==> FirstIndex(p + [x], y) == FirstIndex(p, y)
  {
    forall y | y in p
      ensures FirstIndex(p + [x], y) == FirstIndex(p, y)
    {
      FirstIndexAppend(p, x, y);
    }
  }

  lemma FirstIndexLast(p: seq<string>, x: string)
    requires x !in p
    ensures FirstIndex(p + [x], x) == |p|
  {
    var s := p + [x];
    var a := FirstIndex(s, x);
  }

  /** `[...new Set(s)]`: each value once, in order of first appearance. */
  function Distinct(s: seq<string>): (r: seq<string>)
    ensures forall i, j :: 0 <= i < j < |r| ==> r[i] != r[j]
    ensures forall x :: x in r <==> x in s
    ensures forall i, j :: 0 <= i < j < |r| ==> FirstIndex(s, r[i]) < FirstIndex(s, r[j])
    decreases |s|
  {
    if s == [] then []
    else
      var p := s[..|s| - 1];
      var x := s[|s| - 1];
      assert s == p + [x];
      var u := Distinct(p);
      FirstIndexAppendAll(p, x);
      if x in p then u
      else
        FirstIndexLast(p, x);
        u + [x]
  }

  function CategoryList(goals: seq<Goal>): (r: seq<string>)
    ensures |r| == |goals|
    ensures forall i :: 0 <= i < |goals| ==> r[i] == goals[i].category
  {
    seq(|goals|, i requires 0 <= i < |goals| => goals[i].category)
  }

  /** `categories`: every goal's category, once each, in order of first appearance. */
  function Categories(goals: seq<Goal>): (r: seq<string>)
    ensures forall i, j :: 0 <= i < j < |r| ==> r[i] != r[j]
    ensures forall i :: 0 <= i < |goals| ==> goals[i].category in r
    ensures forall c :: c in r ==> exists i :: 0 <= i < |goals| && goals[i].category == c
    ensures |r| <= |goals|
    ensures forall c :: c in r <==> c in CategoryList(goals)
    ensures forall i, j :: 0 <= i < j < |r| ==>
      FirstIndex(CategoryList(goals), r[i]) < FirstIndex(CategoryList(goals), r[j])
  {
    DistinctNoLonger(CategoryList(goals));
    Distinct(CategoryList(goals))
  }

  lemma DistinctNoLonger(s: seq<string>)
    ensures |Distinct(s)| <= |s|
  {
    var r := Distinct(s);
    var m := set x | x in r;
    var n := set x | x in s;
    assert m == n;
    DistinctCard(r);
    SetOfSeqCard(s);
  }

  lemma {:induction false} DistinctCard(r: seq<string>)
    requires forall i, j :: 0 <= i < j < |r| ==> r[i] != r[j]
    ensures |set x | x in r| == |r|
  {
    if r != [] {
      var t := r[1..];
      DistinctCard(t);
      assert (set x | x in r) == (set x | x in t) + {r[0]};
      assert r[0] !in t;
    }
  }

  lemma {:induction false} SetOfSeqCard(s: seq<string>)
    ensures |set x | x in s| <= |s|
  {
    if s != [] {
      SetOfSeqCard(s[1..]);
      assert (set x | x in s) == (set x | x in s[1..]) + {s[0]};
    }
  }

  // ---------------------------------------------------------------- counts and rate

  function HasStatus(status: string): Goal -> bool {
    (g: Goal) => g.status == status
  }

  datatype StatusCounts = StatusCounts(all: nat, active: nat, completed: nat, paused: nat)

  /** `statusCounts`. */
  function CountStatuses(goals: seq<Goal>): (r: StatusCounts)
    ensures r.all == |goals|
    ensures r.active + r.completed + r.paused <= r.all
    ensures r.active == Count(goals, HasStatus("active"))
    ensures r.completed == Count(goals, HasStatus("completed"))
    ensures r.paused == Count(goals, HasStatus("paused"))
  {
    ThreeStatusesBounded(goals);
    StatusCounts(|goals|, Count(goals, HasStatus("active")), Count(goals, HasStatus("completed")),
                 Count(goals, HasStatus("paused")))
  }

  lemma {:induction false} ThreeStatusesBounded(goals: seq<Goal>)
    ensures Count(goals, HasStatus("active")) + Count(goals, HasStatus("completed")) + Count(goals, HasStatus("paused"))
         <= |goals|
  {
    if goals != [] {
      ThreeStatusesBounded(goals[1..]);
    }
  }

  /** The Success Rate card: completed goals as a rounded percentage of all goals. */
  function SuccessRate(goals: seq<Goal>): (pct: nat)
    ensures pct <= 100
    ensures goals == [] ==> pct == 0
    ensures goals != [] ==>
      pct == ((100 * CountStatuses(goals).completed) as real / |goals| as real + 0.5).Floor
    ensures goals != [] && (forall i :: 0 <= i < |goals| ==> goals[i].status == "completed") ==> pct == 100
  {
    var c := CountStatuses(goals).completed;
    RoundPercentBounds(c, |goals|);
    AllCompleted(goals);
    if goals == [] then 0
    else
      RoundPercentIsMathRound(c, |goals|);
      RoundPercent(c, |goals|)
  }

  lemma AllCompleted(goals: seq<Goal>)
    ensures (forall i :: 0 <= i < |goals| ==> goals[i].status == "completed") ==>
      Count(goals, HasStatus("completed")) == |goals|
  {
    if forall i :: 0 <= i < |goals| ==> goals[i].status == "completed" {
      FilterAll(goals, HasStatus("completed"));
    }
  }
}
