/** Whether an order may still receive a replacement request: the order is
    completed, at most seven days have passed since completion (boundary
    included), and no request has been recorded for it. */
module Eligibility {
  import opened Wrappers
  import opened PostMeta

  const DaySeconds := 86400
  const WindowSeconds := 7 * DaySeconds

  const Completed := "completed"

  /** The part of a WooCommerce order the plugin reads. Totals are in integer
      minor units. */
  datatype Order = Order(
    id: int,
    status: string,
    completedAt: Option<int>,
    total: int,
    itemCount: nat,
    userId: int)

  /** The verdict of the eligibility rule, one reason per way to fail. */
  datatype Verdict = Eligible | NotCompleted | WindowExpired | AlreadySubmitted

  /** Reference statement of the rule; failures are reported in the order
      status, then window, then flag. */
  function Judge(order: Order, submitted: bool, now: int): Verdict {
    if order.status != Completed then NotCompleted
    else if order.completedAt.None? || now - order.completedAt.value > WindowSeconds then WindowExpired
    else if submitted then AlreadySubmitted
    else Eligible
  }

  /** The time test `time() - completed <= 7 * DAY_IN_SECONDS`. */
  predicate WithinWindow(completedAt: int, now: int) {
    now - completedAt <= WindowSeconds
  }

  /** The condition under which the order view shows the
      "request a replacement" button: status and flag first, then the
      completion date, which must exist. */
  function ButtonShown(meta: map<Key, MetaValue>, order: Order, now: int): (shown: bool)
    ensures shown <==> Judge(order, Submitted(meta, order.id), now) == Eligible
    ensures shown ==> order.status == Completed && order.completedAt.Some?
  {
    if order.status == Completed && !Truthy(GetMeta(meta, order.id, SubmittedKey)) then
      match order.completedAt
      case Some(t) => WithinWindow(t, now)
      case None => false
    else false
  }

  /** `absint` of an integer. */
  function AbsInt(x: int): (n: nat)
    ensures n == x || n == -x
  {
    if x < 0 then -x else x
  }

  /** The condition under which the request form is shown on the view-order
      endpoint. `viewOrder` is the raw `view-order` query value; its absint
      names the order, which is looked up in `orders`. The source reads the
      order, and for a completed order its completion date, without a check,
      so on the endpoint both must exist. */
  function FormShown(onViewOrder: bool, viewOrder: int, orders: map<int, Order>, meta: map<Key, MetaValue>, now: int)
    : (shown: bool)
    requires onViewOrder ==>
      var id := AbsInt(viewOrder);
      id in orders && (orders[id].status == Completed ==> orders[id].completedAt.Some?)
    ensures shown <==>
      onViewOrder && Judge(orders[AbsInt(viewOrder)], Submitted(meta, AbsInt(viewOrder)), now) == Eligible
  {
    if onViewOrder then
      var orderId := AbsInt(viewOrder);
      var order := orders[orderId];
      order.status == Completed && WithinWindow(order.completedAt.value, now)
      && !Truthy(GetMeta(meta, orderId, SubmittedKey))
    else false
  }

  /** The handler's first test: completed and within the window; the flag is
      checked separately afterwards. */
  function PeriodOpen(order: Order, now: int): (open: bool)
    requires order.status == Completed ==> order.completedAt.Some?
    ensures open <==> Judge(order, false, now) == Eligible
    ensures !open <==> Judge(order, true, now) in {NotCompleted, WindowExpired}
  {
    order.status == Completed && WithinWindow(order.completedAt.value, now)
  }

  /** The window is closed on the inclusive side: exactly seven days after
      completion is still eligible, one second later is not. */
  lemma WindowBoundary(order: Order, t: int)
    requires order.status == Completed && order.completedAt == Some(t)
    ensures Judge(order, false, t + 7 * 86400) == Eligible
    ensures Judge(order, false, t + 7 * 86400 + 1) == WindowExpired
  {
  }

  /** A non-completed order is never eligible, whatever its dates and flag. */
  lemma NotCompletedNeverEligible(order: Order, submitted: bool, now: int)
    requires order.status != Completed
    ensures Judge(order, submitted, now) != Eligible
  {
  }
}
