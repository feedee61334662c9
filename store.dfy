/** The database as mutable state: each write handler runs as one method that checks the
    stored rows and then updates them in place, the way the handler's statements do inside
    its transaction. Every method is proved to do what the corresponding handler function
    describes, and `Market` to keep the single-sale invariant. */
module Store {
  import opened Domain
  import opened Text
  import OS = OrderService
  import LS = ListingService
  import LR = LegacyRoutes
  import opened Invariants

  /** The tables behind services/order-svc and services/listing-svc. */
  class Market {
    var listings: map<int, Listing>
    var orders: map<int, Order>
    var messages: seq<Message>
    var nextListingId: int
    var nextOrderId: int
    var nextMessageId: int

    function Snapshot(): Db
      reads this
    {
      Db(listings, orders, messages, nextListingId, nextOrderId, nextMessageId)
    }

    ghost predicate Valid()
      reads this
    {
      Consistent(Snapshot())
    }

    /** Empty tables; every id sequence starts at 1. */
    constructor ()
      ensures Valid()
      ensures Snapshot() == Db(map[], map[], [], 1, 1, 1)
    {
      listings := map[];
      orders := map[];
      messages := [];
      nextListingId := 1;
      nextOrderId := 1;
      nextMessageId := 1;
    }

    /** POST /orders: the locked read and its checks, then the INSERT of the order and the
      UPDATE of the listing; an early return is a ROLLBACK and changes nothing. */
    method Purchase(p: Principal, listingId: BodyId) returns (reply: Reply<OrderView>)
      requires Valid()
      modifies this
      ensures Valid()
      ensures (reply, Snapshot()) == OS.Purchase(old(Snapshot()), p, listingId)
    {
      PurchaseKeeps(Snapshot(), p, listingId);
      if listingId.Missing? || listingId.Null? || listingId.Falsy? || listingId == Int(0) {
        return Fail(400, "bad_request");
      }
      if !Numeric(listingId) {
        return Fail(500, "server_error");
      }
      var n := listingId.n;
      if n !in listings {
        return Fail(404, "not_found");
      }
      var l := listings[n];
      if l.sellerId == p.uid {
        return Fail(403, "own_listing");
      }
      if l.status != Active {
        return Fail(409, "not_active");
      }
      var id := nextOrderId;
      orders := orders[id := Order(n, p.uid, Created)];
      nextOrderId := nextOrderId + 1;
      listings := listings[n := l.(status := Sold)];
      reply := Ok(201, OrderView(id, Created, p.uid, n, l.title, l.price, l.sellerId));
    }

    /** PATCH /orders/:id/ship, /deliver and /complete. */
    method Advance(p: Principal, rawId: Option<int>, e: OS.Edge) returns (reply: Reply<Row<OrderStatus>>)
      requires Valid()
      modifies this
      ensures Valid()
      ensures (reply, Snapshot()) == OS.Transition(old(Snapshot()), p, rawId, e)
    {
      TransitionKeeps(Snapshot(), p, rawId, e);
      if rawId.None? {
        return Fail(400, "bad_id");
      }
      var id := rawId.value;
      if !OS.Locates(Snapshot(), id, e) {
        return Fail(404, "not_found");
      }
      if !OS.MayMove(Snapshot(), id, e, p.uid) {
        return Fail(403, "forbidden");
      }
      var o := orders[id];
      if o.status != OS.From(e) {
        return Fail(409, "invalid_status");
      }
      orders := orders[id := o.(status := OS.To(e))];
      reply := Ok(200, Row(id, OS.To(e)));
    }

    /** The checks of POST /orders/:id/messages, in the handler's order, before anything is
      written: the refusal they lead to, or None when the message may be posted. */
    method CheckPost(p: Principal, rawId: Option<int>, text: string) returns (refusal: Option<Reply<Message>>)
      ensures refusal.None? <==> OS.MayPost(Snapshot(), p, rawId, text)
      ensures refusal.Some? ==> (refusal.value, Snapshot()) == OS.PostMessage(Snapshot(), p, rawId, text)
    {
      if rawId.None? {
        return Some(Fail(400, "bad_id"));
      }
      var id := rawId.value;
      if Trim(text) == [] {
        return Some(Fail(400, "empty"));
      }
      if !OS.Joined(Snapshot(), id) {
        return Some(Fail(404, "not_found"));
      }
      if IsAdmin(p) {
        return Some(Fail(403, "admin_view_only"));
      }
      var o := orders[id];
      if o.buyerId != p.uid && listings[o.listingId].sellerId != p.uid {
        assert !OS.IsParticipant(Snapshot(), id, p.uid);
        return Some(Fail(403, "forbidden"));
      }
      if o.status == Completed {
        return Some(Fail(409, "completed"));
      }
      return None;
    }

    /** POST /orders/:id/messages: the checks, then the INSERT of the trimmed text. */
    method PostMessage(p: Principal, rawId: Option<int>, text: string) returns (reply: Reply<Message>)
      requires Valid()
      modifies this
      ensures Valid()
      ensures (reply, Snapshot()) == OS.PostMessage(old(Snapshot()), p, rawId, text)
    {
      var refusal := CheckPost(p, rawId, text);
      if refusal.Some? {
        return refusal.value;
      }
      ghost var before := Snapshot();
      ghost var out := OS.PostMessage(before, p, rawId, text);
      var m := Message(nextMessageId, rawId.value, p.uid, Trim(text));
      assert out.0 == Ok(201, m);
      assert out.1 == before.(messages := before.messages + [m], nextMessageId := before.nextMessageId + 1);
      InsertMessage(m);
      assert Snapshot() == out.1;
      reply := Ok(201, m);
    }

    /** The INSERT into messages, which takes the next message id; a message on a joined order
      from one of its two parties keeps the tables consistent. */
    method InsertMessage(m: Message)
      requires Valid()
      requires m.id == nextMessageId && OS.Joined(Snapshot(), m.orderId) && OS.IsParticipant(Snapshot(), m.orderId, m.senderId)
      modifies this
      ensures Valid()
      ensures Snapshot() == old(Snapshot()).(messages := old(messages) + [m], nextMessageId := old(nextMessageId) + 1)
    {
      AppendMessageKeeps(Snapshot(), m);
      messages, nextMessageId := messages + [m], nextMessageId + 1;
    }

    /** POST /listings. */
    method CreateListing(p: Principal, title: string, price: Option<int>) returns (reply: Reply<Row<Listing>>)
      requires Valid()
      modifies this
      ensures Valid()
      ensures (reply, Snapshot()) == LS.CreateListing(old(Snapshot()), p, title, price)
    {
      CreateListingKeeps(Snapshot(), p, title, price);
      if title == [] || price.None? {
        return Fail(400, "bad_request");
      }
      var id := nextListingId;
      var l := Listing(title, price.value, Active, p.uid);
      listings := listings[id := l];
      nextListingId := nextListingId + 1;
      reply := Ok(201, Row(id, l));
    }

    /** DELETE /listings/:id. */
    method DeleteListing(p: Principal, rawId: Option<int>) returns (reply: Reply<()>)
      requires Valid()
      modifies this
      ensures Valid()
      ensures (reply, Snapshot()) == LS.DeleteListing(old(Snapshot()), p, rawId)
    {
      DeleteListingKeeps(Snapshot(), p, rawId);
      if rawId.None? {
        return Fail(400, "bad_id");
      }
      var id := rawId.value;
      if id !in listings {
        return Fail(404, "not_found");
      }
      var l := listings[id];
      if !IsAdmin(p) && l.sellerId != p.uid {
        return Fail(403, "forbidden");
      }
      if l.status != Active {
        return Fail(409, "not_active");
      }
      listings := listings - {id};
      reply := Ok(200, ());
    }

    /** PATCH /listings/:id/pause and /activate. */
    method SetStatus(p: Principal, rawId: Option<int>, t: LS.Toggle) returns (reply: Reply<Row<Listing>>)
      requires Valid()
      modifies this
      ensures Valid()
      ensures (reply, Snapshot()) == LS.SetStatus(old(Snapshot()), p, rawId, t)
    {
      SetStatusKeeps(Snapshot(), p, rawId, t);
      if rawId.None? {
        return Fail(400, "bad_id");
      }
      var id := rawId.value;
      if id !in listings {
        return Fail(404, "not_found");
      }
      var l := listings[id];
      if !IsAdmin(p) && l.sellerId != p.uid {
        return Fail(403, "forbidden");
      }
      if l.status != LS.Before(t) {
        return Fail(409, "invalid_status");
      }
      var updated := l.(status := LS.After(t));
      listings := listings[id := updated];
      reply := Ok(200, Row(id, updated));
    }
  }

  /** The tables behind the earlier routers, which keep only the id sequences apart. */
  class LegacyMarket {
    var listings: map<int, Listing>
    var orders: map<int, Order>
    var messages: seq<Message>
    var nextListingId: int
    var nextOrderId: int
    var nextMessageId: int

    function Snapshot(): Db
      reads this
    {
      Db(listings, orders, messages, nextListingId, nextOrderId, nextMessageId)
    }

    ghost predicate Valid()
      reads this
    {
      WellFormed(Snapshot())
    }

    constructor ()
      ensures Valid()
      ensures Snapshot() == Db(map[], map[], [], 1, 1, 1)
    {
      listings := map[];
      orders := map[];
      messages := [];
      nextListingId := 1;
      nextOrderId := 1;
      nextMessageId := 1;
    }

    /** POST /orders: coerce the id, read and check the listing, flip it to Sold only if it
      is still Active and count the rows that flip, then insert the order; a failed check
      rolls everything back. */
    method Purchase(p: Principal, listingId: BodyId) returns (reply: Reply<Row<Order>>)
      requires Valid()
      modifies this
      ensures Valid()
      ensures (reply, Snapshot()) == LR.Purchase(old(Snapshot()), p, listingId)
    {
      if listingId.Missing? || listingId.NonInteger? {
        return Fail(400, "bad listingId");
      }
      if listingId.Null? {
        return Fail(404, "not found");
      }
      if !Numeric(listingId) {
        return Fail(500, "internal");
      }
      var n := listingId.n;
      if n !in listings {
        return Fail(404, "not found");
      }
      var row := listings[n];
      if row.sellerId == p.uid {
        return Fail(403, "cannot buy own listing");
      }
      if row.status != Active {
        return Fail(409, "not purchasable");
      }
      var affected := 0;
      if listings[n].status == Active {
        listings := listings[n := listings[n].(status := Sold)];
        affected := 1;
      }
      if affected == 1 {
        var id := nextOrderId;
        var o := Order(n, p.uid, Created);
        orders := orders[id := o];
        nextOrderId := nextOrderId + 1;
        reply := Ok(201, Row(id, o));
      } else {
        reply := Fail(409, "race condition");
      }
    }

    /** POST /listings. */
    method CreateListing(p: Principal, title: string, price: Option<int>) returns (reply: Reply<Row<Listing>>)
      requires Valid()
      modifies this
      ensures Valid()
      ensures (reply, Snapshot()) == LR.CreateListing(old(Snapshot()), p, title, price)
    {
      if title == [] || price.None? || price.value < 0 {
        return Fail(400, "bad request");
      }
      var id := nextListingId;
      var l := Listing(title, price.value, Active, p.uid);
      listings := listings[id := l];
      nextListingId := nextListingId + 1;
      reply := Ok(201, Row(id, l));
    }

    /** DELETE /listings/:id as one conditional DELETE and its row count. */
    method DeleteListing(p: Principal, rawId: Option<int>) returns (reply: Reply<()>)
      requires Valid()
      modifies this
      ensures Valid()
      ensures (reply, Snapshot()) == LR.DeleteListing(old(Snapshot()), p, rawId)
    {
      if rawId.None? {
        return Fail(400, "bad id");
      }
      var id := rawId.value;
      var rowCount := 0;
      if id in listings && listings[id].sellerId == p.uid && listings[id].status == Active {
        listings := listings - {id};
        rowCount := 1;
      }
      if rowCount == 0 {
        return Fail(404, "not found or not deletable");
      }
      reply := Ok(204, ());
    }

    /** PATCH /listings/:id/pause (target Paused) and /activate (target Active), behind
      `requireAdmin`: the UPDATE overwrites the status of whatever row has the id. */
    method AdminSetStatus(p: Principal, rawId: Option<int>, target: ListingStatus) returns (reply: Reply<Row<Listing>>)
      requires Valid()
      modifies this
      ensures Valid()
      ensures (reply, Snapshot()) == LR.AdminSetStatus(old(Snapshot()), p, rawId, target)
    {
      if !IsAdmin(p) {
        return Fail(403, "forbidden");
      }
      if rawId.None? {
        return Fail(400, "bad id");
      }
      var id := rawId.value;
      if id !in listings {
        return Fail(404, "not found");
      }
      var updated := listings[id].(status := target);
      listings := listings[id := updated];
      reply := Ok(200, Row(id, updated));
    }
  }
}
