/** The bridge into the YITH refund system: turns an order into a pending
    whole-order refund request, saves it, and on success attaches the
    customer's message to it. */
module RefundBridge {
  import opened Eligibility

  const PendingStatus := "ywcars-pending"

  /** The fields of a YITH refund request that the bridge sets. */
  datatype RefundRequest = RefundRequest(
    orderId: int,
    wholeOrder: bool,
    itemId: int,
    itemValue: int,
    itemTotal: int,
    taxValue: int,
    taxTotal: int,
    qty: int,
    qtyTotal: int,
    itemRefundTotal: int,
    taxRefundTotal: int,
    refundTotal: int,
    refundId: int,
    refundedAmount: int,
    customerId: int,
    couponId: int,
    isClosed: bool,
    status: string)

  /** A YITH request message: the request it belongs to, its text, its author. */
  datatype RequestMessage = RequestMessage(request: nat, message: string, author: int)

  /** What the external `save()` calls answer, which the bridge cannot see:
      the id `save()` returns for the request (0 stands for `false` or any
      falsy id) and whether the message was stored. */
  datatype YithResponse = YithResponse(saveReturn: nat, messageSaved: bool)

  datatype BridgeFailure = ClassMissing | OrderMissing | SaveFailed

  /** The bridge returns the new request's id, or `false` (here with the
      reason it failed). */
  datatype BridgeResult = Created(id: nat) | Failed(reason: BridgeFailure)

  /** The observable state of the YITH plugin. */
  datatype SinkState = SinkState(
    classExists: bool,
    requests: map<nat, RefundRequest>,
    messages: seq<RequestMessage>)

  /** A refund request as the plugin's defaults make it: the whole order,
      no single item, no tax, nothing refunded yet, open and pending. */
  predicate PendingWholeOrder(r: RefundRequest) {
    && r.wholeOrder && r.itemId == 0 && r.itemValue == 0 && r.qty == 0
    && r.taxValue == 0 && r.taxTotal == 0 && r.taxRefundTotal == 0
    && r.itemTotal == r.itemRefundTotal == r.refundTotal
    && r.refundId == 0 && r.refundedAmount == 0 && r.couponId == 0
    && !r.isClosed && r.status == PendingStatus
  }

  /** The request the bridge builds for an order: a pending whole-order
      request for the order's full total, its item count and its customer. */
  function WholeOrderRefund(orderId: int, order: Order): (r: RefundRequest)
    ensures PendingWholeOrder(r)
    ensures r.orderId == orderId && r.refundTotal == order.total
    ensures r.qtyTotal == order.itemCount && r.customerId == order.userId
  {
    RefundRequest(
      orderId := orderId, wholeOrder := true, itemId := 0, itemValue := 0,
      itemTotal := order.total, taxValue := 0, taxTotal := 0, qty := 0,
      qtyTotal := order.itemCount, itemRefundTotal := order.total,
      taxRefundTotal := 0, refundTotal := order.total, refundId := 0,
      refundedAmount := 0, customerId := order.userId, couponId := 0,
      isClosed := false, status := PendingStatus)
  }

  /** Specification of `create_yith_refund_request`: the result and the YITH
      state afterwards. */
  function Bridge(s: SinkState, orders: map<int, Order>, orderId: int, message: string, yith: YithResponse)
    : (out: (BridgeResult, SinkState))
    ensures out.0.Created? <==> s.classExists && orderId in orders && yith.saveReturn != 0
    ensures !s.classExists ==> out.0 == Failed(ClassMissing)
    ensures s.classExists && orderId !in orders ==> out.0 == Failed(OrderMissing)
    ensures out.0.Failed? ==> out.1 == s
    ensures out.0.Created? ==>
      && out.0.id == yith.saveReturn
      && out.1.classExists == s.classExists
      && out.1.requests == s.requests[out.0.id := WholeOrderRefund(orderId, orders[orderId])]
      && out.1.messages ==
           s.messages + (if yith.messageSaved then [RequestMessage(out.0.id, message, orders[orderId].userId)] else [])
  {
    if !s.classExists then (Failed(ClassMissing), s)
    else if orderId !in orders then (Failed(OrderMissing), s)
    else
      var req := WholeOrderRefund(orderId, orders[orderId]);
      if yith.saveReturn == 0 then (Failed(SaveFailed), s)
      else
        var id := yith.saveReturn;
        var msgs := if yith.messageSaved then s.messages + [RequestMessage(id, message, req.customerId)] else s.messages;
        (Created(id), SinkState(s.classExists, s.requests[id := req], msgs))
  }

  /** A `YITH_Refund_Request` object under construction; the bridge sets its
      fields one by one before saving it. */
  class RefundRequestObject {
    var fields: RefundRequest

    /** The plugin's own defaults are not part of this model; every field is
        overwritten by the bridge before the object is saved. */
    constructor ()
    {
    }

    /** Sets every field for a whole-order request for `order`, one
        assignment at a time. */
    method FillFromOrder(id: int, order: Order)
      modifies this
      ensures fields == WholeOrderRefund(id, order)
    {
      fields := fields.(orderId := id);
      fields := fields.(wholeOrder := true);
      fields := fields.(itemId := 0);
      fields := fields.(itemValue := 0);
      fields := fields.(itemTotal := order.total);
      fields := fields.(taxValue := 0);
      fields := fields.(taxTotal := 0);
      fields := fields.(qty := 0);
      fields := fields.(qtyTotal := order.itemCount);
      fields := fields.(itemRefundTotal := order.total);
      fields := fields.(taxRefundTotal := 0);
      fields := fields.(refundTotal := order.total);
      fields := fields.(refundId := 0);
      fields := fields.(refundedAmount := 0);
      fields := fields.(customerId := order.userId);
      fields := fields.(couponId := 0);
      fields := fields.(isClosed := false);
      fields := fields.(status := PendingStatus);
    }
  }

  /** The YITH plugin's store of refund requests and messages. */
  class YithStore {
    var classExists: bool
    var requests: map<nat, RefundRequest>
    var messages: seq<RequestMessage>

    constructor (s: SinkState)
      ensures State() == s
    {
      classExists, requests, messages := s.classExists, s.requests, s.messages;
    }

    function State(): SinkState
      reads this
    {
      SinkState(classExists, requests, messages)
    }

    /** `$refund_request->save()`: stores the request under the id the plugin
        answers, or stores nothing and answers 0. */
    method SaveRequest(obj: RefundRequestObject, answer: nat) returns (id: nat)
      modifies this
      ensures id == answer
      ensures State() == if answer == 0 then old(State())
                         else old(State()).(requests := old(requests)[answer := obj.fields])
    {
      id := answer;
      if answer != 0 {
        requests := requests[answer := obj.fields];
      }
    }

    /** `$refund_message->save()`: appends the message when the plugin stores it. */
    method SaveMessage(msg: RequestMessage, stored: bool)
      modifies this
      ensures State() == old(State()).(messages := old(messages) + if stored then [msg] else [])
    {
      if stored {
        messages := messages + [msg];
      }
    }
  }

  /** `create_yith_refund_request($order_id, $message)`. */
  method CreateYithRefundRequest(sink: YithStore, orders: map<int, Order>, orderId: int, message: string, yith: YithResponse)
    returns (result: BridgeResult)
    modifies sink
    ensures (result, sink.State()) == Bridge(old(sink.State()), orders, orderId, message, yith)
  {
    if !sink.classExists {
      return Failed(ClassMissing);
    }
    if orderId !in orders {
      return Failed(OrderMissing);
    }
    var order := orders[orderId];
    var req := new RefundRequestObject();
    req.FillFromOrder(orderId, order);
    assert req.fields == WholeOrderRefund(orderId, order);

    var id := sink.SaveRequest(req, yith.saveReturn);
    if id != 0 {
      sink.SaveMessage(RequestMessage(id, message, req.fields.customerId), yith.messageSaved);
      return Created(id);
    }
    return Failed(SaveFailed);
  }
}
