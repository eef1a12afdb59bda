/** The reaction bar under a feed update: five fixed reaction types, a count per type,
    and a highlight for types "the user" has reacted with. The card's `user` is the
    update's author, looked up by the page; the highlight compares against that
    author's numeric `Id`. */
module UpdateCard {
  import opened Wrappers
  import opened Js
  import opened Seqs
  import opened Entities
  import PodFeed

  /** 👏 🔥 💪 🎉 ❤️, in display order. */
  const ReactionTypes: seq<string> :=
    ["\U{1F44F}", "\U{1F525}", "\U{1F4AA}", "\U{1F389}", "\U{2764}\U{FE0F}"]

  function OfKind(kind: string): Reaction -> bool {
    (r: Reaction) => r.kind == kind
  }

  /** `getUpdateReactions(updateId)`: the reactions the page hands to one card. */
  function ForUpdate(updateId: Value): Reaction -> bool {
    (r: Reaction) => r.updateId == updateId
  }

  /** `user?.Id`: the author's numeric key, or `undefined` without an author. */
  function AuthorKey(author: Option<User>): (v: Value)
    ensures author.None? <==> v == Undef
  {
    match author
    case None => Undef
    case Some(u) => Num(u.Id)
  }

  /** `hasUserReacted(type)` as written: some reaction of that type carries the author's Id. */
  predicate HasUserReacted(rs: seq<Reaction>, kind: string, author: Option<User>) {
    exists i :: 0 <= i < |rs| && rs[i].kind == kind && rs[i].userId == AuthorKey(author)
  }

  /** One reaction button: its type, its count, the count label (shown only when
      positive), whether it is highlighted, and the arguments of `onReact`. */
  datatype Button = Button(kind: string, count: nat, shownCount: Option<nat>, highlighted: bool, onReact: (int, string))

  /** The reaction bar of the update `updateId` written by `author`. */
  function Buttons(rs: seq<Reaction>, updateId: int, author: Option<User>): (r: seq<Button>)
    ensures |r| == 5
    ensures forall i :: 0 <= i < 5 ==>
      && r[i].kind == ReactionTypes[i]
      && r[i].count == Count(rs, OfKind(ReactionTypes[i]))
      && (r[i].shownCount.Some? <==> r[i].count > 0)
      && (r[i].shownCount.Some? ==> r[i].shownCount.value == r[i].count)
      && (r[i].highlighted <==> HasUserReacted(rs, ReactionTypes[i], author))
      && r[i].onReact == (updateId, ReactionTypes[i])
  {
    seq(5, i requires 0 <= i < 5 =>
      var n := Count(rs, OfKind(ReactionTypes[i]));
      Button(ReactionTypes[i], n, if n > 0 then Some(n) else None,
             HasUserReacted(rs, ReactionTypes[i], author), (updateId, ReactionTypes[i])))
  }

  /** Under the default empty list every count is 0, no count is shown and nothing is lit. */
  lemma EmptyBarIsBlank(updateId: int, author: Option<User>)
    ensures forall i :: 0 <= i < 5 ==>
      var b := Buttons([], updateId, author)[i];
      b.count == 0 && b.shownCount.None? && !b.highlighted
  {}

  /** A type's count is positive exactly when some reaction of that type is present. */
  lemma CountPositiveIffPresent(rs: seq<Reaction>, kind: string)
    ensures Count(rs, OfKind(kind)) > 0 <==> exists i :: 0 <= i < |rs| && rs[i].kind == kind
  {
    var f := Filter(rs, OfKind(kind));
    if exists i :: 0 <= i < |rs| && rs[i].kind == kind {
      var i :| 0 <= i < |rs| && rs[i].kind == kind;
      assert rs[i] in f;
    }
    if |f| > 0 {
      assert f[0] in rs;
      var i :| 0 <= i < |rs| && rs[i] == f[0];
      assert rs[i].kind == kind;
    }
  }

  // ---------------------------------------------------------------- the highlight finding

  /** Reacting through the feed never lights a button as written: the feed stores the
      viewer's reactions with the string Id '1', which is never the author's numeric Id, so
      a button lit after the toggle was already lit before it. */
  lemma FeedToggleNeverLightsAsWritten(rs: seq<Reaction>, updateId: int, kind: string, newId: int, storeOk: bool,
                                       author: Option<User>)
    ensures var after := PodFeed.HandleReaction(rs, Num(updateId), kind, newId, storeOk).reactions;
      HasUserReacted(Filter(after, ForUpdate(Num(updateId))), kind, author) ==>
        HasUserReacted(Filter(rs, ForUpdate(Num(updateId))), kind, author)
  {
    var after := PodFeed.HandleReaction(rs, Num(updateId), kind, newId, storeOk).reactions;
    var card := Filter(after, ForUpdate(Num(updateId)));
    if HasUserReacted(card, kind, author) {
      var i :| 0 <= i < |card| && card[i].kind == kind && card[i].userId == AuthorKey(author);
      assert card[i] in after;
      assert card[i].userId != Str("1");
      assert card[i] in rs;
      var j :| 0 <= j < |rs| && rs[j] == card[i];
      assert rs[j] in Filter(rs, ForUpdate(Num(updateId)));
    }
  }

  /** Concretely: the signed-in user (Id 1) reacts to their own update and the button
      stays unlit, although the reaction is there. */
  lemma OwnReactionUnlitAsWritten()
    ensures var me := Some(User(1, Num(1), "John Doe", None));
      var after := PodFeed.HandleReaction([], Num(7), "\U{1F525}", 1, true).reactions;
      && after == [Reaction(1, Num(7), Str("1"), "\U{1F525}")]
      && !HasUserReacted(Filter(after, ForUpdate(Num(7))), "\U{1F525}", me)
      && ViewerReacted(Filter(after, ForUpdate(Num(7))), "\U{1F525}")
  {
    var after := PodFeed.HandleReaction([], Num(7), "\U{1F525}", 1, true).reactions;
    assert Filter(after, ForUpdate(Num(7))) == after;
  }

  /** The evidently intended highlight: the signed-in viewer (whose reactions carry the
      string Id '1') has reacted with this type. */
  predicate ViewerReacted(rs: seq<Reaction>, kind: string) {
    exists i :: 0 <= i < |rs| && rs[i].kind == kind && rs[i].userId == Str("1")
  }

  /** At most one of the viewer's own reactions per update and type, the shape the toggle keeps. */
  predicate AtMostOneOwn(rs: seq<Reaction>, updateId: Value, kind: string) {
    forall i, j ::
      (0 <= i < |rs| && 0 <= j < |rs| && PodFeed.OwnReaction(rs[i], updateId, kind) &&
       PodFeed.OwnReaction(rs[j], updateId, kind)) ==> i == j
  }

  lemma ViewerReactedOnCard(rs: seq<Reaction>, updateId: Value, kind: string)
    ensures ViewerReacted(Filter(rs, ForUpdate(updateId)), kind)
        <==> exists i :: 0 <= i < |rs| && PodFeed.OwnReaction(rs[i], updateId, kind)
  {
    var card := Filter(rs, ForUpdate(updateId));
    if exists i :: 0 <= i < |rs| && PodFeed.OwnReaction(rs[i], updateId, kind) {
      var i :| 0 <= i < |rs| && PodFeed.OwnReaction(rs[i], updateId, kind);
      assert rs[i] in card;
    }
    if ViewerReacted(card, kind) {
      var i :| 0 <= i < |card| && card[i].kind == kind && card[i].userId == Str("1");
      assert card[i] in rs;
    }
  }

  /** With the intended highlight each successful toggle flips the button. */
  lemma ToggleFlipsViewerHighlight(rs: seq<Reaction>, updateId: int, kind: string, newId: int)
    requires AtMostOneOwn(rs, Num(updateId), kind)
    ensures var after := PodFeed.HandleReaction(rs, Num(updateId), kind, newId, true).reactions;
      ViewerReacted(Filter(after, ForUpdate(Num(updateId))), kind) <==>
        !ViewerReacted(Filter(rs, ForUpdate(Num(updateId))), kind)
  {
    var u := Num(updateId);
    var after := PodFeed.HandleReaction(rs, u, kind, newId, true).reactions;
    ViewerReactedOnCard(rs, u, kind);
    ViewerReactedOnCard(after, u, kind);
    var found := Find(rs, (x: Reaction) => PodFeed.OwnReaction(x, u, kind));
    if found.None? {
      assert PodFeed.OwnReaction(after[|rs|], u, kind);
    }
  }
}
