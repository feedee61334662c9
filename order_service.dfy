/** The handlers of services/order-svc/server.js as functions from the database before the
    request to the reply and the database after it. Every handler here gets the principal
    that `authRequired` verified. */
module OrderService {
  import opened Domain
  import opened Text
  import opened Sorting

  // ---------------------------------------------------------------------------
  // Reading orders through `orders JOIN listings`

  /** The order exists and so does its listing: the join yields a row for it. */
  predicate Joined(db: Db, id: int)
  {
    id in db.orders && db.orders[id].listingId in db.listings
  }

  function SellerOf(db: Db, id: int): int
    requires Joined(db, id)
  {
    db.listings[db.orders[id].listingId].sellerId
  }

  /** The caller is the order's buyer or the seller of its listing. */
  predicate IsParticipant(db: Db, id: int, uid: int)
    requires Joined(db, id)
  {
    db.orders[id].buyerId == uid || SellerOf(db, id) == uid
  }

  /** Who may read an order and its messages: an admin or a participant. */
  predicate MayRead(db: Db, id: int, p: Principal)
    requires Joined(db, id)
  {
    IsAdmin(p) || IsParticipant(db, id, p.uid)
  }

  function View(db: Db, id: int): (v: OrderView)
    requires Joined(db, id)
  {
    var o := db.orders[id];
    var l := db.listings[o.listingId];
    OrderView(id, o.status, o.buyerId, o.listingId, l.title, l.price, l.sellerId)
  }

  function ViewsOf(db: Db, ids: seq<int>): (views: seq<OrderView>)
    requires forall i :: 0 <= i < |ids| ==> Joined(db, ids[i])
    ensures |views| == |ids|
    ensures forall k :: 0 <= k < |ids| ==> views[k] == View(db, ids[k])
  {
    if ids == [] then [] else [View(db, ids[0])] + ViewsOf(db, ids[1..])
  }

  function ViewIds(views: seq<OrderView>): set<int>
  {
    set k | 0 <= k < |views| :: views[k].id
  }

  /** Exactly the joined orders of `ids`, each as the join shows it, newest first. */
  function ViewsDesc(db: Db, ids: set<int>): (views: seq<OrderView>)
    requires forall id :: id in ids ==> Joined(db, id)
    ensures ViewIds(views) == ids
    ensures forall k :: 0 <= k < |views| ==> views[k].id in ids && Joined(db, views[k].id) && views[k] == View(db, views[k].id)
    ensures forall i, j :: 0 <= i < j < |views| ==> views[i].id > views[j].id
  {
    var order := SortedDesc(ids);
    var views := ViewsOf(db, order);
    SameViewIds(views, order, ids);
    views
  }

  lemma SameViewIds(views: seq<OrderView>, order: seq<int>, ids: set<int>)
    requires |views| == |order| && forall k :: 0 <= k < |order| ==> views[k].id == order[k]
    requires forall x :: x in order <==> x in ids
    ensures ViewIds(views) == ids
  {
    forall x | x in ids ensures x in ViewIds(views) {
      var k :| 0 <= k < |order| && order[k] == x;
      assert views[k].id == x;
    }
  }

  /** The joined orders the user bought. */
  ghost function BoughtBy(db: Db, uid: int): set<int>
  {
    set id | id in db.orders && Joined(db, id) && db.orders[id].buyerId == uid
  }

  /** The joined orders placed on the user's listings. */
  ghost function SoldBy(db: Db, uid: int): set<int>
  {
    set id | id in db.orders && Joined(db, id) && SellerOf(db, id) == uid
  }

  /** Every joined order. */
  ghost function AllJoined(db: Db): set<int>
  {
    set id | id in db.orders && Joined(db, id)
  }

  /** GET /orders/buyer/me: the orders the caller bought, newest first. */
  function BuyerOrders(db: Db, uid: int): (views: seq<OrderView>)
    ensures ViewIds(views) == BoughtBy(db, uid)
    ensures forall k :: 0 <= k < |views| ==> views[k].buyerId == uid && Joined(db, views[k].id) && views[k] == View(db, views[k].id)
    ensures forall i, j :: 0 <= i < j < |views| ==> views[i].id > views[j].id
  {
    ViewsDesc(db, set id | id in db.orders && Joined(db, id) && db.orders[id].buyerId == uid)
  }

  /** GET /orders/seller/me: the orders placed on the caller's listings, newest first. */
  function SellerOrders(db: Db, uid: int): (views: seq<OrderView>)
    ensures ViewIds(views) == SoldBy(db, uid)
    ensures forall k :: 0 <= k < |views| ==> views[k].sellerId == uid && Joined(db, views[k].id) && views[k] == View(db, views[k].id)
    ensures forall i, j :: 0 <= i < j < |views| ==> views[i].id > views[j].id
  {
    ViewsDesc(db, set id | id in db.orders && Joined(db, id) && SellerOf(db, id) == uid)
  }

  /** GET /orders/admin/all: every order, newest first, for admins only. */
  function AdminOrders(db: Db, p: Principal): (r: Reply<seq<OrderView>>)
    ensures r.Fail? <==> !IsAdmin(p)
    ensures r.Fail? ==> r == Fail(403, "forbidden")
    ensures r.Ok? ==> r.code == 200 && ViewIds(r.value) == AllJoined(db)
    ensures r.Ok? ==> forall k :: 0 <= k < |r.value| ==> Joined(db, r.value[k].id) && r.value[k] == View(db, r.value[k].id)
    ensures r.Ok? ==> forall i, j :: 0 <= i < j < |r.value| ==> r.value[i].id > r.value[j].id
  {
    if !IsAdmin(p) then Fail(403, "forbidden")
    else Ok(200, ViewsDesc(db, set id | id in db.orders && Joined(db, id)))
  }

  /** GET /orders/:id: the joined order, for an admin or a participant. */
  function OrderDetail(db: Db, p: Principal, rawId: Option<int>): (r: Reply<OrderView>)
    ensures r.Ok? <==> rawId.Some? && Joined(db, rawId.value) && MayRead(db, rawId.value, p)
    ensures r.Ok? ==> r == Ok(200, View(db, rawId.value))
    ensures rawId.None? ==> r == Fail(400, "bad_id")
    ensures rawId.Some? && !Joined(db, rawId.value) ==> r == Fail(404, "not_found")
    ensures rawId.Some? && Joined(db, rawId.value) && !MayRead(db, rawId.value, p) ==> r == Fail(403, "forbidden")
  {
    match rawId
    case None => Fail(400, "bad_id")
    case Some(id) =>
      if !Joined(db, id) then Fail(404, "not_found")
      else if !IsAdmin(p) && db.orders[id].buyerId != p.uid && SellerOf(db, id) != p.uid then Fail(403, "forbidden")
      else Ok(200, View(db, id))
  }

  // ---------------------------------------------------------------------------
  // Purchase

  /** What POST /orders requires to sell: a truthy value the database reads as an id (so not
      the number 0), a listing under it, a seller other than the caller, and the status Active. */
  predicate Purchasable(db: Db, p: Principal, listingId: BodyId)
  {
    && Numeric(listingId) && listingId != Int(0) && listingId.n in db.listings
    && db.listings[listingId.n].sellerId != p.uid
    && db.listings[listingId.n].status == Active
  }

  /** POST /orders: a falsy `listingId` is refused at once; a truthy one goes to the locked
      read, which throws (500) unless the database reads it as an id. The row is checked in the
      fixed order (exists, not the caller's own, Active), then a CREATED order is inserted for
      the caller and the listing marked Sold; any failure rolls back. */
  function Purchase(db: Db, p: Principal, listingId: BodyId): (out: (Reply<OrderView>, Db))
    ensures out.0.Fail? ==> out.1 == db
    ensures out.0.Ok? <==> Purchasable(db, p, listingId)
    ensures out.0.Ok? ==>
      var n := listingId.n;
      var l := db.listings[n];
      && out.0 == Ok(201, OrderView(db.nextOrderId, Created, p.uid, n, l.title, l.price, l.sellerId))
      && out.1 == db.(listings := db.listings[n := l.(status := Sold)],
                      orders := db.orders[db.nextOrderId := Order(n, p.uid, Created)],
                      nextOrderId := db.nextOrderId + 1)
    ensures listingId.Missing? || listingId.Null? || listingId.Falsy? || listingId == Int(0) ==>
      out.0 == Fail(400, "bad_request")
    ensures listingId.CoercesOnly? || listingId.NonInteger? ==> out.0 == Fail(500, "server_error")
    ensures Numeric(listingId) && listingId != Int(0) ==>
      && (listingId.n !in db.listings ==> out.0 == Fail(404, "not_found"))
      && (listingId.n in db.listings && db.listings[listingId.n].sellerId == p.uid ==> out.0 == Fail(403, "own_listing"))
      && ((listingId.n in db.listings && db.listings[listingId.n].sellerId != p.uid &&
           db.listings[listingId.n].status != Active) ==> out.0 == Fail(409, "not_active"))
  {
    if listingId.Missing? || listingId.Null? || listingId.Falsy? || listingId == Int(0) then
      (Fail(400, "bad_request"), db)
    else if !Numeric(listingId) then (Fail(500, "server_error"), db)   // the SELECT throws
    else
      var n := listingId.n;
      if n !in db.listings then (Fail(404, "not_found"), db)
      else
        var l := db.listings[n];
        if l.sellerId == p.uid then (Fail(403, "own_listing"), db)
        else if l.status != Active then (Fail(409, "not_active"), db)
        else
          var id := db.nextOrderId;
          var after := db.(listings := db.listings[n := l.(status := Sold)],
                           orders := db.orders[id := Order(n, p.uid, Created)],
                           nextOrderId := id + 1);
          (Ok(201, OrderView(id, Created, p.uid, n, l.title, l.price, l.sellerId)), after)
  }

  // ---------------------------------------------------------------------------
  // Lifecycle: ship, deliver, complete

  datatype Edge = ShipEdge | DeliverEdge | CompleteEdge

  function From(e: Edge): OrderStatus
  {
    match e
    case ShipEdge => Created
    case DeliverEdge => Shipping
    case CompleteEdge => Delivered
  }

  function To(e: Edge): OrderStatus
  {
    match e
    case ShipEdge => Shipping
    case DeliverEdge => Delivered
    case CompleteEdge => Completed
  }

  /** The row the handler locks: ship reads the order through the join with its listing,
      deliver and complete read `orders` alone. */
  predicate Locates(db: Db, id: int, e: Edge)
  {
    if e == ShipEdge then Joined(db, id) else id in db.orders
  }

  /** Ship is the seller's move; deliver and complete are the buyer's. */
  predicate MayMove(db: Db, id: int, e: Edge, uid: int)
    requires Locates(db, id, e)
  {
    if e == ShipEdge then SellerOf(db, id) == uid else db.orders[id].buyerId == uid
  }

  /** PATCH /orders/:id/ship, /deliver and /complete: find the order, check the caller's role
      for the edge, then the current status, then move the order along the edge. */
  function Transition(db: Db, p: Principal, rawId: Option<int>, e: Edge): (out: (Reply<Row<OrderStatus>>, Db))
    ensures out.0.Fail? ==> out.1 == db
    ensures out.0.Ok? <==>
      rawId.Some? && Locates(db, rawId.value, e) && MayMove(db, rawId.value, e, p.uid) &&
      db.orders[rawId.value].status == From(e)
    ensures out.0.Ok? ==>
      var id := rawId.value;
      && out.0 == Ok(200, Row(id, To(e)))
      && out.1 == db.(orders := db.orders[id := db.orders[id].(status := To(e))])
    ensures rawId.None? ==> out.0 == Fail(400, "bad_id")
    ensures rawId.Some? && !Locates(db, rawId.value, e) ==> out.0 == Fail(404, "not_found")
    ensures rawId.Some? && Locates(db, rawId.value, e) && !MayMove(db, rawId.value, e, p.uid) ==>
      out.0 == Fail(403, "forbidden")
    ensures (rawId.Some? && Locates(db, rawId.value, e) && MayMove(db, rawId.value, e, p.uid) &&
             db.orders[rawId.value].status != From(e)) ==> out.0 == Fail(409, "invalid_status")
  {
    match rawId
    case None => (Fail(400, "bad_id"), db)
    case Some(id) =>
      if !Locates(db, id, e) then (Fail(404, "not_found"), db)
      else if !MayMove(db, id, e, p.uid) then (Fail(403, "forbidden"), db)
      else if db.orders[id].status != From(e) then (Fail(409, "invalid_status"), db)
      else (Ok(200, Row(id, To(e))), db.(orders := db.orders[id := db.orders[id].(status := To(e))]))
  }

  // ---------------------------------------------------------------------------
  // Messages

  /** The messages of one order, in the order they are stored. */
  function MessagesOf(messages: seq<Message>, id: int): (r: seq<Message>)
    ensures forall m :: m in r <==> m in messages && m.orderId == id
  {
    if messages == [] then []
    else (if messages[0].orderId == id then [messages[0]] else []) + MessagesOf(messages[1..], id)
  }

  predicate Ascending(messages: seq<Message>)
  {
    forall i, j :: 0 <= i < j < |messages| ==> messages[i].id < messages[j].id
  }

  /** Read in stored order, the messages of an order come in ascending id when the table's
      ids grow with insertion, as `ORDER BY id ASC` returns them. */
  lemma {:induction false} MessagesOfAscending(messages: seq<Message>, id: int)
    requires Ascending(messages)
    ensures Ascending(MessagesOf(messages, id))
  {
    if messages != [] {
      var rest := messages[1..];
      MessagesOfAscending(rest, id);
      if messages[0].orderId == id {
        FirstBelowRest(messages);
        PrependAscending(messages[0], MessagesOf(rest, id));
      } else {
        assert MessagesOf(messages, id) == MessagesOf(rest, id);
      }
    }
  }

  lemma FirstBelowRest(messages: seq<Message>)
    requires messages != [] && Ascending(messages)
    ensures forall m :: m in messages[1..] ==> messages[0].id < m.id
  {
    forall m | m in messages[1..] ensures messages[0].id < m.id {
      var k :| 0 <= k < |messages[1..]| && messages[1..][k] == m;
      assert messages[k + 1] == m;
    }
  }

  lemma PrependAscending(first: Message, tail: seq<Message>)
    requires Ascending(tail)
    requires forall m :: m in tail ==> first.id < m.id
    ensures Ascending([first] + tail)
  {
    var r := [first] + tail;
    forall i, j | 0 <= i < j < |r| ensures r[i].id < r[j].id {
      assert r[j] == tail[j - 1] && tail[j - 1] in tail;
      if i > 0 { assert r[i] == tail[i - 1]; }
    }
  }

  /** GET /orders/:id/messages: the order's messages for an admin or a participant. */
  function ListMessages(db: Db, p: Principal, rawId: Option<int>): (r: Reply<seq<Message>>)
    ensures r.Ok? <==> rawId.Some? && Joined(db, rawId.value) && MayRead(db, rawId.value, p)
    ensures r.Ok? ==> r.code == 200 && forall m :: m in r.value <==> m in db.messages && m.orderId == rawId.value
    ensures r.Ok? && WellFormed(db) ==> Ascending(r.value)
    ensures rawId.None? ==> r == Fail(400, "bad_id")
    ensures rawId.Some? && !Joined(db, rawId.value) ==> r == Fail(404, "not_found")
    ensures rawId.Some? && Joined(db, rawId.value) && !MayRead(db, rawId.value, p) ==> r == Fail(403, "forbidden")
  {
    match rawId
    case None => Fail(400, "bad_id")
    case Some(id) =>
      if !Joined(db, id) then Fail(404, "not_found")
      else if !IsAdmin(p) && db.orders[id].buyerId != p.uid && SellerOf(db, id) != p.uid then Fail(403, "forbidden")
      else
        assert WellFormed(db) ==> Ascending(MessagesOf(db.messages, id)) by {
          if WellFormed(db) { MessagesOfAscending(db.messages, id); }
        }
        Ok(200, MessagesOf(db.messages, id))
  }

  /** What POST /orders/:id/messages requires to store a message. */
  predicate MayPost(db: Db, p: Principal, rawId: Option<int>, text: string)
  {
    && rawId.Some? && Trim(text) != [] && Joined(db, rawId.value)
    && !IsAdmin(p) && IsParticipant(db, rawId.value, p.uid)
    && db.orders[rawId.value].status != Completed
  }

  /** POST /orders/:id/messages; a missing `text` is the empty string. The body is checked
      before the order is looked up; admins only watch; a completed order is closed. */
  function PostMessage(db: Db, p: Principal, rawId: Option<int>, text: string): (out: (Reply<Message>, Db))
    ensures out.0.Fail? ==> out.1 == db
    ensures out.0.Ok? <==> MayPost(db, p, rawId, text)
    ensures out.0.Ok? ==>
      && out.0 == Ok(201, Message(db.nextMessageId, rawId.value, p.uid, Trim(text)))
      && out.1 == db.(messages := db.messages + [out.0.value], nextMessageId := db.nextMessageId + 1)
    ensures rawId.None? ==> out.0 == Fail(400, "bad_id")
    ensures rawId.Some? && Trim(text) == [] ==> out.0 == Fail(400, "empty")
    ensures rawId.Some? && Trim(text) != [] ==>
      && (!Joined(db, rawId.value) ==> out.0 == Fail(404, "not_found"))
      && (Joined(db, rawId.value) && IsAdmin(p) ==> out.0 == Fail(403, "admin_view_only"))
      && (Joined(db, rawId.value) && !IsAdmin(p) && !IsParticipant(db, rawId.value, p.uid) ==>
            out.0 == Fail(403, "forbidden"))
      && ((Joined(db, rawId.value) && !IsAdmin(p) && IsParticipant(db, rawId.value, p.uid) &&
           db.orders[rawId.value].status == Completed) ==> out.0 == Fail(409, "completed"))
  {
    match rawId
    case None => (Fail(400, "bad_id"), db)
    case Some(id) =>
      var body := Trim(text);
      if body == [] then (Fail(400, "empty"), db)
      else if !Joined(db, id) then (Fail(404, "not_found"), db)
      else if IsAdmin(p) then (Fail(403, "admin_view_only"), db)
      else if db.orders[id].buyerId != p.uid && SellerOf(db, id) != p.uid then (Fail(403, "forbidden"), db)
      else if db.orders[id].status == Completed then (Fail(409, "completed"), db)
      else
        var m := Message(db.nextMessageId, id, p.uid, body);
        (Ok(201, m), db.(messages := db.messages + [m], nextMessageId := db.nextMessageId + 1))
  }
}
