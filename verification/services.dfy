/** The seven services built on the generic keyed store, each fixed by the entity name
    its errors carry. Every one of them offers getAll, getById, create, update and
    delete exactly as `KeyedStore` defines them. */
module Services {
  import opened Wrappers
  import opened Js
  import opened KeyedStore

  const GoalEntity := Entity("Goal")
  const MilestoneEntity := Entity("Milestone")
  const ReactionEntity := Entity("Reaction")
  const UpdateEntity := Entity("Update")
  const UserEntity := Entity("User")
  const PodEntity := Entity("Pod")
  const TemplateEntity := Entity("Template")

  /** No record carries the Id. */
  predicate Missing(s: Store, id: int) {
    forall j :: 0 <= j < |s| ==> !HasId(s[j], id)
  }

  /** getById, update and delete all throw the same error for a missing Id. */
  predicate ThrowsOnMissing(e: Entity, s: Store, id: int, patch: Object, message: string) {
    && GetById(e, s, id) == Failure(message)
    && Update(e, s, id, patch) == Failure(message)
    && Delete(e, s, id) == Failure(message)
  }

  lemma GoalServiceNotFound(s: Store, id: int, patch: Object)
    requires Missing(s, id)
    ensures ThrowsOnMissing(GoalEntity, s, id, patch, "Goal not found")
  {}

  lemma MilestoneServiceNotFound(s: Store, id: int, patch: Object)
    requires Missing(s, id)
    ensures ThrowsOnMissing(MilestoneEntity, s, id, patch, "Milestone not found")
  {}

  lemma ReactionServiceNotFound(s: Store, id: int, patch: Object)
    requires Missing(s, id)
    ensures ThrowsOnMissing(ReactionEntity, s, id, patch, "Reaction not found")
  {}

  lemma UpdateServiceNotFound(s: Store, id: int, patch: Object)
    requires Missing(s, id)
    ensures ThrowsOnMissing(UpdateEntity, s, id, patch, "Update not found")
  {}

  lemma UserServiceNotFound(s: Store, id: int, patch: Object)
    requires Missing(s, id)
    ensures ThrowsOnMissing(UserEntity, s, id, patch, "User not found")
  {}

  lemma PodServiceNotFound(s: Store, id: int, patch: Object)
    requires Missing(s, id)
    ensures ThrowsOnMissing(PodEntity, s, id, patch, "Pod not found")
  {}

  lemma TemplateServiceNotFound(s: Store, id: int, patch: Object)
    requires Missing(s, id)
    ensures ThrowsOnMissing(TemplateEntity, s, id, patch, "Template not found")
  {}
}
