/** Properties of the replacement-request handler across one submission and
    across any sequence of submissions. */
module HandlerProperties {
  import opened Wrappers
  import opened PostMeta
  import opened Eligibility
  import opened RefundBridge
  import opened SubmissionHandler

  /** An accepted submission writes the message and the flag on the order.
      When the bridge created a request it also writes the back-link on the
      refund post and nothing else; when the bridge failed the local record
      stays, nothing is rolled back and the YITH plugin is untouched. */
  lemma AcceptedWrites(w: World, orders: map<int, Order>, now: int, sub: Submission, yith: YithResponse)
    requires CanHandle(orders, Some(sub))
    requires Accepted(Handle(w, orders, now, Some(sub), yith).0)
    ensures
      var id := AbsInt(sub.orderIdField);
      var out := Handle(w, orders, now, Some(sub), yith);
      var recorded := w.meta[(id, MessageKey) := Str(sub.message)][(id, SubmittedKey) := Bool(true)];
      var bridged := Bridge(w.sink, orders, id, sub.message, yith);
      && out.1.sink == bridged.1
      && match bridged.0
         case Created(rid) =>
           && out.0 == RedirectToOrders(RequestAndRefundCreated)
           && out.1.meta == recorded[(rid, OrderIdKey) := Int(id)][(rid, SubmittedKey) := Bool(true)]
           && rid in out.1.sink.requests
           && out.1.sink.requests[rid] == WholeOrderRefund(id, orders[id])
         case Failed(_) =>
           && out.0 == RedirectToOrders(RefundCreationFailed)
           && out.1.meta == recorded
           && out.1.sink == w.sink
  {
  }

  /** With the YITH plugin absent, an eligible submission is still recorded
      on the order, the customer sees the error notice, and no refund
      request or message is created. */
  lemma PluginMissingDegrades(w: World, orders: map<int, Order>, now: int, sub: Submission, yith: YithResponse)
    requires CanHandle(orders, Some(sub))
    requires !w.sink.classExists
    requires Judge(orders[AbsInt(sub.orderIdField)], Submitted(w.meta, AbsInt(sub.orderIdField)), now) == Eligible
    ensures
      var id := AbsInt(sub.orderIdField);
      var out := Handle(w, orders, now, Some(sub), yith);
      && out.0 == RedirectToOrders(RefundCreationFailed)
      && out.1.sink == w.sink
      && out.1.meta == w.meta[(id, MessageKey) := Str(sub.message)][(id, SubmittedKey) := Bool(true)]
  {
    AcceptedWrites(w, orders, now, sub, yith);
  }

  /** A set flag is never cleared: the handler only ever writes `true` under
      the flag key. */
  lemma FlagsPersist(w: World, orders: map<int, Order>, now: int, post: Option<Submission>,
                      yith: YithResponse, p: int)
    requires CanHandle(orders, post)
    requires Submitted(w.meta, p)
    ensures Submitted(Handle(w, orders, now, post, yith).1.meta, p)
  {
  }

  /** Once a submission for an order has been accepted, a later submission for
      the same order is never accepted and changes nothing, whatever the order
      store then says about the order (its status or completion date may have
      changed): it gets the "already submitted" notice while the period is
      open, and the "period expired" one otherwise. */
  lemma SecondSubmissionRejected(w: World, orders: map<int, Order>, now: int, sub: Submission, yith: YithResponse,
                                 orders': map<int, Order>, later: int, again: Submission, yith': YithResponse)
    requires CanHandle(orders, Some(sub))
    requires Accepted(Handle(w, orders, now, Some(sub), yith).0)
    requires CanHandle(orders', Some(again))
    requires AbsInt(again.orderIdField) == AbsInt(sub.orderIdField)
    ensures
      var w' := Handle(w, orders, now, Some(sub), yith).1;
      var out := Handle(w', orders', later, Some(again), yith');
      && !Accepted(out.0)
      && out.1 == w'
      && (out.0 == RedirectToOrders(AlreadySubmittedNotice) <==> PeriodOpen(orders'[AbsInt(sub.orderIdField)], later))
  {
  }

  /** A request as the handler meets it: the order store at that moment, the
      clock, the POSTed form and the YITH plugin's answers. */
  datatype Request = Request(orders: map<int, Order>, now: int, post: Option<Submission>, yith: YithResponse)

  predicate AllHandleable(reqs: seq<Request>) {
    forall i :: 0 <= i < |reqs| ==> CanHandle(reqs[i].orders, reqs[i].post)
  }

  /** The ids of the orders whose submission was accepted, in the order the
      requests were handled one after another. */
  function AcceptedIds(w: World, reqs: seq<Request>): seq<nat>
    requires AllHandleable(reqs)
    decreases |reqs|
  {
    if reqs == [] then []
    else
      var out := Handle(w, reqs[0].orders, reqs[0].now, reqs[0].post, reqs[0].yith);
      var rest := AcceptedIds(out.1, reqs[1..]);
      if Accepted(out.0) then [AbsInt(reqs[0].post.value.orderIdField)] + rest else rest
  }

  /** Success happens at most once per order: along any sequence of requests,
      with the orders free to change between them, no order is accepted twice,
      and an order whose flag was already set is never accepted. */
  lemma {:induction false} AcceptedAtMostOnce(w: World, reqs: seq<Request>)
    requires AllHandleable(reqs)
    ensures forall i :: 0 <= i < |AcceptedIds(w, reqs)| ==> !Submitted(w.meta, AcceptedIds(w, reqs)[i])
    ensures forall i, j :: 0 <= i < j < |AcceptedIds(w, reqs)| ==> AcceptedIds(w, reqs)[i] != AcceptedIds(w, reqs)[j]
    decreases |reqs|
  {
    if reqs != [] {
      var r := reqs[0];
      var out := Handle(w, r.orders, r.now, r.post, r.yith);
      assert AllHandleable(reqs[1..]) by {
        forall i | 0 <= i < |reqs[1..]| ensures CanHandle(reqs[1..][i].orders, reqs[1..][i].post) {
          assert reqs[1..][i] == reqs[i + 1];
        }
      }
      var rest := AcceptedIds(out.1, reqs[1..]);
      AcceptedAtMostOnce(out.1, reqs[1..]);
      forall i | 0 <= i < |rest| ensures !Submitted(w.meta, rest[i]) {
        assert !Submitted(out.1.meta, rest[i]);
        if Submitted(w.meta, rest[i]) {
          FlagsPersist(w, r.orders, r.now, r.post, r.yith, rest[i]);
        }
      }
      if Accepted(out.0) {
        var id := AbsInt(r.post.value.orderIdField);
        assert Submitted(out.1.meta, id);
        var ids := [id] + rest;
        assert ids == AcceptedIds(w, reqs);
        assert !Submitted(w.meta, id);
        forall i, j | 0 <= i < j < |ids| ensures ids[i] != ids[j] {
          if i == 0 {
            assert ids[j] == rest[j - 1];
            assert !Submitted(out.1.meta, rest[j - 1]);
          } else {
            assert ids[i] == rest[i - 1] && ids[j] == rest[j - 1];
          }
        }
      }
    }
  }
}
