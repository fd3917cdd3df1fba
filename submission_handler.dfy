/** `handle_replacement_request`: a one-shot transition over the post-meta
    store and the YITH plugin, driven by one POSTed form. */
module SubmissionHandler {
  import opened Wrappers
  import opened PostMeta
  import opened Eligibility
  import opened RefundBridge

  /** The POSTed form: the `order_id` field as an integer and the sanitized
      `replacement_message`. */
  datatype Submission = Submission(orderIdField: int, message: string)

  /** The notice shown to the customer. */
  datatype Notice = RequestAndRefundCreated | RefundCreationFailed | AlreadySubmittedNotice | PeriodExpired

  /** A request without `submit_replacement_request` is left alone; every
      handled submission ends in a redirect to the orders endpoint. */
  datatype Response = NotASubmission | RedirectToOrders(notice: Notice)

  /** Everything the handler can change: the post meta and the YITH plugin. */
  datatype World = World(meta: map<Key, MetaValue>, sink: SinkState)

  /** The submission was accepted and recorded, whatever the bridge did. */
  predicate Accepted(resp: Response) {
    resp == RedirectToOrders(RequestAndRefundCreated) || resp == RedirectToOrders(RefundCreationFailed)
  }

  /** The handler dereferences the order, and for a completed order its
      completion date, without checking them; a submission must name an
      existing order that, when completed, has a completion date. */
  predicate CanHandle(orders: map<int, Order>, post: Option<Submission>) {
    post.Some? ==>
      var id := AbsInt(post.value.orderIdField);
      id in orders && (orders[id].status == Completed ==> orders[id].completedAt.Some?)
  }

  /** Specification of the handler: its response and the world afterwards.
      The outcome follows the eligibility verdict; only an accepted
      submission changes anything. */
  function Handle(w: World, orders: map<int, Order>, now: int, post: Option<Submission>, yith: YithResponse)
    : (out: (Response, World))
    requires CanHandle(orders, post)
    ensures post.None? <==> out.0 == NotASubmission
    ensures !Accepted(out.0) ==> out.1 == w
    ensures post.Some? ==>
      var id := AbsInt(post.value.orderIdField);
      var verdict := Judge(orders[id], Submitted(w.meta, id), now);
      && (out.0 == RedirectToOrders(PeriodExpired) <==> verdict in {NotCompleted, WindowExpired})
      && (out.0 == RedirectToOrders(AlreadySubmittedNotice) <==> verdict == AlreadySubmitted)
      && (Accepted(out.0) <==> verdict == Eligible)
      && (Accepted(out.0) ==>
            && Submitted(out.1.meta, id)
            && GetMeta(out.1.meta, id, MessageKey) == Str(post.value.message))
  {
    match post
    case None => (NotASubmission, w)
    case Some(sub) =>
      var id := AbsInt(sub.orderIdField);
      if PeriodOpen(orders[id], now) then
        if !Truthy(GetMeta(w.meta, id, SubmittedKey)) then
          var recorded := w.meta[(id, MessageKey) := Str(sub.message)][(id, SubmittedKey) := Bool(true)];
          var (created, sink') := Bridge(w.sink, orders, id, sub.message, yith);
          match created
          case Created(rid) =>
            var linked := recorded[(rid, OrderIdKey) := Int(id)][(rid, SubmittedKey) := Bool(true)];
            (RedirectToOrders(RequestAndRefundCreated), World(linked, sink'))
          case Failed(_) =>
            (RedirectToOrders(RefundCreationFailed), World(recorded, sink'))
        else (RedirectToOrders(AlreadySubmittedNotice), w)
      else (RedirectToOrders(PeriodExpired), w)
  }

  /** `handle_replacement_request()`, over the shared post-meta store and the
      YITH plugin. */
  method HandleReplacementRequest(store: PostMetaStore, sink: YithStore, orders: map<int, Order>, now: int,
                                  post: Option<Submission>, yith: YithResponse)
    returns (resp: Response)
    requires CanHandle(orders, post)
    modifies store, sink
    ensures (resp, World(store.entries, sink.State())) ==
            Handle(World(old(store.entries), old(sink.State())), orders, now, post, yith)
  {
    if post.None? {
      return NotASubmission;
    }
    var orderId := AbsInt(post.value.orderIdField);
    var message := post.value.message;
    var order := orders[orderId];
    if PeriodOpen(order, now) {
      if !Truthy(GetMeta(store.entries, orderId, SubmittedKey)) {
        store.Update(orderId, MessageKey, Str(message));
        store.Update(orderId, SubmittedKey, Bool(true));
        var created := CreateYithRefundRequest(sink, orders, orderId, message, yith);
        if created.Created? {
          store.Update(created.id, OrderIdKey, Int(orderId));
          store.Update(created.id, SubmittedKey, Bool(true));
          resp := RedirectToOrders(RequestAndRefundCreated);
        } else {
          resp := RedirectToOrders(RefundCreationFailed);
        }
      } else {
        resp := RedirectToOrders(AlreadySubmittedNotice);
      }
    } else {
      resp := RedirectToOrders(PeriodExpired);
    }
  }
}
