/** podService's one addition to the keyed store: `notifyMembers`. */
module PodService {
  import opened Wrappers
  import opened Js
  import opened KeyedStore
  import Services

  /** The report `notifyMembers` resolves with; the store itself is never touched. */
  datatype Notification = Notification(
    success: bool,
    notifiedMembers: Value,
    kind: string,
    message: Value,
    timestamp: Value,
    podId: Value)

  /** `pod.memberIds.length`: arrays and strings have a length, `undefined` and `null`
      throw a TypeError, any other value has no `length` property. */
  function MemberCount(memberIds: Value): (r: Result<Value>)
    ensures memberIds.Arr? ==> r == Success(Num(|memberIds.items|))
    ensures memberIds.Undef? || memberIds.Null? ==> r.Failure?
  {
    match memberIds
    case Arr(xs) => Success(Num(|xs|))
    case Str(s) => Success(Num(|s|))
    case Undef => Failure("TypeError: Cannot read properties of undefined (reading 'length')")
    case Null => Failure("TypeError: Cannot read properties of null (reading 'length')")
    case _ => Success(Undef)
  }

  /** `notifyMembers(podId, notification)`: throws "Pod not found" for a missing pod,
      otherwise reports how many member ids the pod lists. `now` is the ISO timestamp. */
  function NotifyMembers(pods: Store, podId: int, notification: Object, now: Value): (r: Result<Notification>)
    ensures GetById(Services.PodEntity, pods, podId).Failure? ==> r == Failure("Pod not found")
    ensures r.Success? ==>
      && GetById(Services.PodEntity, pods, podId).Success?
      && r.value.success
      && r.value.kind == "milestone_completed"
      && r.value.message == Get(notification, "message")
      && r.value.podId == Num(podId)
    ensures forall p :: GetById(Services.PodEntity, pods, podId) == Success(p) && Get(p, "memberIds").Arr? ==>
      r.Success? && r.value.notifiedMembers == Num(|Get(p, "memberIds").items|)
  {
    match GetById(Services.PodEntity, pods, podId)
    case Failure(e) => Failure(e)
    case Success(pod) =>
      match MemberCount(Get(pod, "memberIds"))
      case Failure(e) => Failure(e)
      case Success(n) =>
        Success(Notification(true, n, "milestone_completed", Get(notification, "message"), now, Num(podId)))
  }
}
