/** What the order service and the listing service keep true together, one request after
    another; and how the earlier routers break it. */
module Invariants {
  import opened Domain
  import opened Sorting
  import OS = OrderService
  import LS = ListingService
  import LR = LegacyRoutes

  // ---------------------------------------------------------------------------
  // The invariant

  /** The orders placed on one listing. */
  function OrdersFor(db: Db, lid: int): (ids: set<int>)
    ensures ids <= db.orders.Keys
  {
    set id | id in db.orders && db.orders[id].listingId == lid
  }

  /** Every order has its listing; that listing is Sold and is not the buyer's own. */
  ghost predicate OrdersValid(db: Db)
  {
    forall id :: id in db.orders ==>
      && OS.Joined(db, id)
      && db.listings[db.orders[id].listingId].status == Sold
      && db.orders[id].buyerId != OS.SellerOf(db, id)
  }

  /** No two orders share a listing. */
  ghost predicate OneOrderPerListing(db: Db)
  {
    forall i, j :: i in db.orders && j in db.orders && db.orders[i].listingId == db.orders[j].listingId ==> i == j
  }

  /** A Sold listing has an order. */
  ghost predicate SoldHasOrder(db: Db)
  {
    forall lid :: lid in db.listings && db.listings[lid].status == Sold ==>
      exists id :: id in db.orders && db.orders[id].listingId == lid
  }

  /** Every message belongs to an order and was written by one of its two parties. */
  ghost predicate MessagesValid(db: Db)
  {
    forall i :: 0 <= i < |db.messages| ==>
      OS.Joined(db, db.messages[i].orderId) && OS.IsParticipant(db, db.messages[i].orderId, db.messages[i].senderId)
  }

  ghost predicate Consistent(db: Db)
  {
    WellFormed(db) && OrdersValid(db) && OneOrderPerListing(db) && SoldHasOrder(db) && MessagesValid(db)
  }

  /** Single sale: a listing is Sold exactly when one order, and only one, references it. */
  lemma SingleSale(db: Db, lid: int)
    requires Consistent(db) && lid in db.listings
    ensures db.listings[lid].status == Sold <==> |OrdersFor(db, lid)| == 1
    ensures db.listings[lid].status != Sold ==> OrdersFor(db, lid) == {}
  {
    if db.listings[lid].status == Sold {
      var id :| id in db.orders && db.orders[id].listingId == lid;
      forall x | x in OrdersFor(db, lid) ensures x == id { }
      assert id in OrdersFor(db, lid);
      assert OrdersFor(db, lid) == {id};
    } else {
      NoElementsIsEmpty(OrdersFor(db, lid));
    }
  }

  /** An empty marketplace is consistent. */
  lemma EmptyIsConsistent()
    ensures Consistent(Db(map[], map[], [], 1, 1, 1))
  {
  }

  // ---------------------------------------------------------------------------
  // Every write keeps it

  lemma PurchaseKeeps(db: Db, p: Principal, listingId: BodyId)
    requires Consistent(db)
    ensures Consistent(OS.Purchase(db, p, listingId).1)
  {
    var (reply, after) := OS.Purchase(db, p, listingId);
    if reply.Ok? {
      var n := listingId.n;
      var oid := db.nextOrderId;
      assert oid !in db.orders;
      forall id | id in db.orders ensures db.orders[id].listingId != n {
        assert db.listings[db.orders[id].listingId].status == Sold;
      }
      forall lid | lid in after.listings && after.listings[lid].status == Sold
        ensures exists id :: id in after.orders && after.orders[id].listingId == lid
      {
        if lid == n {
          assert after.orders[oid].listingId == lid;
        } else {
          var id :| id in db.orders && db.orders[id].listingId == lid;
          assert after.orders[id].listingId == lid;
        }
      }
      assert OrdersValid(after);
      assert MessagesValid(after);
    }
  }

  lemma TransitionKeeps(db: Db, p: Principal, rawId: Option<int>, e: OS.Edge)
    requires Consistent(db)
    ensures Consistent(OS.Transition(db, p, rawId, e).1)
  {
    var (reply, after) := OS.Transition(db, p, rawId, e);
    if reply.Ok? {
      var id := rawId.value;
      forall lid | lid in after.listings && after.listings[lid].status == Sold
        ensures exists o :: o in after.orders && after.orders[o].listingId == lid
      {
        var o :| o in db.orders && db.orders[o].listingId == lid;
        assert after.orders[o].listingId == lid;
      }
      assert MessagesValid(after);
    }
  }

  lemma PostMessageKeeps(db: Db, p: Principal, rawId: Option<int>, text: string)
    requires Consistent(db)
    ensures Consistent(OS.PostMessage(db, p, rawId, text).1)
  {
    var (reply, after) := OS.PostMessage(db, p, rawId, text);
    if reply.Ok? {
      AppendMessageKeeps(db, reply.value);
    }
  }

  /** Appending a message that a party of an existing order wrote, under the next id. */
  lemma AppendMessageKeeps(db: Db, m: Message)
    requires Consistent(db)
    requires m.id == db.nextMessageId && OS.Joined(db, m.orderId) && OS.IsParticipant(db, m.orderId, m.senderId)
    ensures Consistent(db.(messages := db.messages + [m], nextMessageId := db.nextMessageId + 1))
  {
    var after := db.(messages := db.messages + [m], nextMessageId := db.nextMessageId + 1);
    forall i | 0 <= i < |after.messages|
      ensures after.messages[i].id < after.nextMessageId
      ensures OS.Joined(after, after.messages[i].orderId)
      ensures OS.IsParticipant(after, after.messages[i].orderId, after.messages[i].senderId)
    {
      if i < |db.messages| { assert after.messages[i] == db.messages[i]; }
    }
    forall i, j | 0 <= i < j < |after.messages| ensures after.messages[i].id < after.messages[j].id {
      assert after.messages[i] == db.messages[i];
      if j < |db.messages| { assert after.messages[j] == db.messages[j]; }
    }
  }

  lemma CreateListingKeeps(db: Db, p: Principal, title: string, price: Option<int>)
    requires Consistent(db)
    ensures Consistent(LS.CreateListing(db, p, title, price).1)
  {
    var (reply, after) := LS.CreateListing(db, p, title, price);
    if reply.Ok? {
      var lid := db.nextListingId;
      assert lid !in db.listings;
      forall o | o in db.orders ensures db.orders[o].listingId != lid { }
      assert OrdersValid(after);
      assert MessagesValid(after);
    }
  }

  lemma DeleteListingKeeps(db: Db, p: Principal, rawId: Option<int>)
    requires Consistent(db)
    ensures Consistent(LS.DeleteListing(db, p, rawId).1)
  {
    var (reply, after) := LS.DeleteListing(db, p, rawId);
    if reply.Ok? {
      var lid := rawId.value;
      forall o | o in db.orders ensures db.orders[o].listingId != lid {
        assert db.listings[db.orders[o].listingId].status == Sold;
      }
      assert OrdersValid(after);
      assert MessagesValid(after);
    }
  }

  lemma SetStatusKeeps(db: Db, p: Principal, rawId: Option<int>, t: LS.Toggle)
    requires Consistent(db)
    ensures Consistent(LS.SetStatus(db, p, rawId, t).1)
  {
    var (reply, after) := LS.SetStatus(db, p, rawId, t);
    if reply.Ok? {
      var lid := rawId.value;
      forall o | o in db.orders ensures db.orders[o].listingId != lid {
        assert db.listings[db.orders[o].listingId].status == Sold;
      }
      assert OrdersValid(after);
      assert MessagesValid(after);
    }
  }

  // ---------------------------------------------------------------------------
  // Runs of requests

  /** The requests of the two services that write; every other handler only reads. */
  datatype Request =
    | Buy(p: Principal, listingId: BodyId)
    | Move(p: Principal, rawId: Option<int>, e: OS.Edge)
    | Post(p: Principal, rawId: Option<int>, text: string)
    | Create(p: Principal, title: string, price: Option<int>)
    | Delete(p: Principal, rawId: Option<int>)
    | Flip(p: Principal, rawId: Option<int>, t: LS.Toggle)

  /** The database after one request, whatever the reply. */
  function Step(db: Db, r: Request): Db
  {
    match r
    case Buy(p, listingId) => OS.Purchase(db, p, listingId).1
    case Move(p, rawId, e) => OS.Transition(db, p, rawId, e).1
    case Post(p, rawId, text) => OS.PostMessage(db, p, rawId, text).1
    case Create(p, title, price) => LS.CreateListing(db, p, title, price).1
    case Delete(p, rawId) => LS.DeleteListing(db, p, rawId).1
    case Flip(p, rawId, t) => LS.SetStatus(db, p, rawId, t).1
  }

  /** The database after the requests, served one at a time in order. */
  function Run(db: Db, rs: seq<Request>): Db
    decreases |rs|
  {
    if rs == [] then db else Run(Step(db, rs[0]), rs[1..])
  }

  lemma StepKeepsConsistent(db: Db, r: Request)
    requires Consistent(db)
    ensures Consistent(Step(db, r))
  {
    match r
    case Buy(p, listingId) => PurchaseKeeps(db, p, listingId);
    case Move(p, rawId, e) => TransitionKeeps(db, p, rawId, e);
    case Post(p, rawId, text) => PostMessageKeeps(db, p, rawId, text);
    case Create(p, title, price) => CreateListingKeeps(db, p, title, price);
    case Delete(p, rawId) => DeleteListingKeeps(db, p, rawId);
    case Flip(p, rawId, t) => SetStatusKeeps(db, p, rawId, t);
  }

  /** The invariant holds after any run of requests that starts from a consistent database,
      so single sale holds at every point of every run. */
  lemma {:induction false} RunKeepsConsistent(db: Db, rs: seq<Request>)
    requires Consistent(db)
    ensures Consistent(Run(db, rs))
    decreases |rs|
  {
    if rs != [] {
      StepKeepsConsistent(db, rs[0]);
      RunKeepsConsistent(Step(db, rs[0]), rs[1..]);
    }
  }

  /** No request changes or removes a Sold listing. */
  lemma StepKeepsSold(db: Db, r: Request, lid: int)
    requires WellFormed(db) && lid in db.listings && db.listings[lid].status == Sold
    ensures lid in Step(db, r).listings && Step(db, r).listings[lid] == db.listings[lid]
  {
  }

  lemma {:induction false} RunKeepsSold(db: Db, rs: seq<Request>, lid: int)
    requires Consistent(db) && lid in db.listings && db.listings[lid].status == Sold
    ensures lid in Run(db, rs).listings && Run(db, rs).listings[lid] == db.listings[lid]
    decreases |rs|
  {
    if rs != [] {
      StepKeepsSold(db, rs[0], lid);
      StepKeepsConsistent(db, rs[0]);
      RunKeepsSold(Step(db, rs[0]), rs[1..], lid);
    }
  }

  /** Once a purchase has gone through, every later purchase of that listing, after any
      requests at all, is refused and changes nothing; `again` is any body that names the same
      listing and gets past the falsy check. */
  lemma SecondPurchaseFails(db: Db, p: Principal, first: BodyId, rs: seq<Request>, q: Principal, again: BodyId)
    requires Consistent(db) && OS.Purchase(db, p, first).0.Ok?
    requires Numeric(again) && again.n == first.n && again != Int(0)
    ensures var later := Run(OS.Purchase(db, p, first).1, rs);
      var (reply, after) := OS.Purchase(later, q, again);
      reply in {Fail(409, "not_active"), Fail(403, "own_listing")} && after == later
  {
    var sold := OS.Purchase(db, p, first).1;
    PurchaseKeeps(db, p, first);
    RunKeepsSold(sold, rs, first.n);
  }

  // ---------------------------------------------------------------------------
  // Order status moves forward one step at a time

  /** Position in CREATED, SHIPPING, DELIVERED, COMPLETED. */
  function Rank(s: OrderStatus): int
  {
    match s
    case Created => 0
    case Shipping => 1
    case Delivered => 2
    case Completed => 3
  }

  const Lifecycle: seq<OrderStatus> := [Created, Shipping, Delivered, Completed]

  lemma RankIndexes(s: OrderStatus)
    ensures 0 <= Rank(s) < 4 && Lifecycle[Rank(s)] == s
  {
  }

  /** A status either stays or moves to the next one. */
  predicate Advances(a: OrderStatus, b: OrderStatus)
  {
    b == a || Rank(b) == Rank(a) + 1
  }

  /** Every request keeps each order, with its listing and buyer, and at most moves its status
      one step along the lifecycle; a Completed order no longer changes. */
  lemma StepAdvancesOrder(db: Db, r: Request, id: int)
    requires WellFormed(db) && id in db.orders
    ensures id in Step(db, r).orders
    ensures var a := db.orders[id]; var b := Step(db, r).orders[id];
      b.listingId == a.listingId && b.buyerId == a.buyerId && Advances(a.status, b.status)
    ensures db.orders[id].status == Completed ==> Step(db, r).orders[id] == db.orders[id]
  {
  }

  /** The statuses one order goes through during a run, one per state of the run. */
  ghost function Trace(db: Db, rs: seq<Request>, id: int): (t: seq<OrderStatus>)
    requires Consistent(db) && id in db.orders
    ensures |t| == |rs| + 1 && t[0] == db.orders[id].status
    decreases |rs|
  {
    if rs == [] then [db.orders[id].status]
    else
      StepAdvancesOrder(db, rs[0], id);
      StepKeepsConsistent(db, rs[0]);
      [db.orders[id].status] + Trace(Step(db, rs[0]), rs[1..], id)
  }

  /** Each status of the trace advances to the next. */
  predicate Chain(t: seq<OrderStatus>)
  {
    forall k :: 0 <= k < |t| - 1 ==> Advances(t[k], t[k + 1])
  }

  lemma PrependChain(a: OrderStatus, tail: seq<OrderStatus>)
    requires tail != [] && Advances(a, tail[0]) && Chain(tail)
    ensures Chain([a] + tail)
  {
    var t := [a] + tail;
    forall k | 0 <= k < |t| - 1 ensures Advances(t[k], t[k + 1]) {
      if k > 0 { assert t[k] == tail[k - 1] && t[k + 1] == tail[k]; }
    }
  }

  lemma {:induction false} TraceAdvances(db: Db, rs: seq<Request>, id: int)
    requires Consistent(db) && id in db.orders
    ensures Chain(Trace(db, rs, id))
    decreases |rs|
  {
    if rs != [] {
      var next := Step(db, rs[0]);
      StepAdvancesOrder(db, rs[0], id);
      StepKeepsConsistent(db, rs[0]);
      TraceAdvances(next, rs[1..], id);
      PrependChain(db.orders[id].status, Trace(next, rs[1..], id));
    }
  }

  /** A trace with consecutive repeats removed. */
  function Compress(t: seq<OrderStatus>): (c: seq<OrderStatus>)
    requires t != []
    ensures c != [] && c[0] == t[0]
  {
    if |t| == 1 then t
    else if t[0] == t[1] then Compress(t[1..])
    else [t[0]] + Compress(t[1..])
  }

  /** A trace that only ever advances, once its repeats are removed, is the stretch of the
      lifecycle that starts at its first status. */
  lemma {:induction false} CompressIsSlice(t: seq<OrderStatus>)
    requires t != [] && Chain(t)
    ensures var c := Compress(t); Rank(t[0]) + |c| <= 4 && c == Lifecycle[Rank(t[0])..Rank(t[0]) + |c|]
    decreases |t|
  {
    RankIndexes(t[0]);
    if |t| > 1 {
      CompressIsSlice(t[1..]);
      var c' := Compress(t[1..]);
      var r := Rank(t[1]);
      assert Advances(t[0], t[1]);
      if t[0] != t[1] {
        assert Compress(t) == [t[0]] + c';
        assert r == Rank(t[0]) + 1;
        var k := Rank(t[0]);
        assert Lifecycle[k..r + |c'|] == [Lifecycle[k]] + Lifecycle[r..r + |c'|];
      }
    }
  }

  /** The status history of an order created during a run, from CREATED on, is always a
      prefix of CREATED, SHIPPING, DELIVERED, COMPLETED. */
  lemma HistoryIsPrefix(db: Db, rs: seq<Request>, id: int)
    requires Consistent(db) && id in db.orders && db.orders[id].status == Created
    ensures Compress(Trace(db, rs, id)) <= Lifecycle
  {
    TraceAdvances(db, rs, id);
    CompressIsSlice(Trace(db, rs, id));
  }

  /** The history of an order created during a run: the purchase that creates it, then any
      requests, and its statuses without repeats are a prefix of the lifecycle. */
  lemma PurchasedHistoryIsPrefix(db: Db, p: Principal, listingId: BodyId, rs: seq<Request>)
    requires Consistent(db) && OS.Purchase(db, p, listingId).0.Ok?
    ensures var (reply, after) := OS.Purchase(db, p, listingId);
      && Consistent(after) && reply.value.id in after.orders && after.orders[reply.value.id].status == Created
      && Compress(Trace(after, rs, reply.value.id)) <= Lifecycle
  {
    PurchaseKeeps(db, p, listingId);
    var (reply, after) := OS.Purchase(db, p, listingId);
    HistoryIsPrefix(after, rs, reply.value.id);
  }

  // ---------------------------------------------------------------------------
  // The earlier routers

  /** On any body the database reads as an id, other than the number 0, the earlier purchase
      route and the service's agree on when a purchase succeeds and on the database after it. */
  lemma PurchasesAgree(db: Db, p: Principal, listingId: BodyId)
    requires Numeric(listingId) && listingId != Int(0)
    ensures LR.Purchase(db, p, listingId).0.Ok? <==> OS.Purchase(db, p, listingId).0.Ok?
    ensures LR.Purchase(db, p, listingId).1 == OS.Purchase(db, p, listingId).1
  {
  }

  /** A purchase through the earlier route keeps the invariant too. */
  lemma LegacyPurchaseKeeps(db: Db, p: Principal, listingId: BodyId)
    requires Consistent(db)
    ensures Consistent(LR.Purchase(db, p, listingId).1)
  {
    if Numeric(listingId) && listingId != Int(0) {
      PurchasesAgree(db, p, listingId);
      PurchaseKeeps(db, p, listingId);
    } else if listingId == Int(0) && LR.Purchase(db, p, listingId).0.Ok? {
      var (reply, after) := LR.Purchase(db, p, listingId);
      forall id | id in db.orders ensures db.orders[id].listingId != 0 {
        assert db.listings[db.orders[id].listingId].status == Sold;
      }
      forall lid | lid in after.listings && after.listings[lid].status == Sold
        ensures exists id :: id in after.orders && after.orders[id].listingId == lid
      {
        if lid == 0 {
          assert after.orders[db.nextOrderId].listingId == lid;
        } else {
          var id :| id in db.orders && db.orders[id].listingId == lid;
          assert after.orders[id].listingId == lid;
        }
      }
      assert OrdersValid(after);
      assert MessagesValid(after);
    }
  }

  /** The earlier routes let an admin reopen a Sold listing, after which it is sold a second
      time: two orders for one listing, and the invariant is gone. The service refuses the
      same reopening with 409. */
  lemma LegacyReopenBreaksSingleSale()
    ensures var seller := Principal(1, "user");
      var buyer := Principal(2, "user");
      var admin := Principal(3, "admin");
      var other := Principal(4, "user");
      var db0 := Db(map[1 := Listing("lamp", 10, Active, seller.uid)], map[], [], 2, 1, 1);
      var (r1, db1) := LR.Purchase(db0, buyer, Int(1));
      var (r2, db2) := LR.AdminSetStatus(db1, admin, Some(1), Active);
      var (r3, db3) := LR.Purchase(db2, other, Int(1));
      && Consistent(db0) && Consistent(db1)
      && r1.Ok? && r2.Ok? && r3.Ok?
      && db3.listings[1].status == Sold && |OrdersFor(db3, 1)| == 2
      && !Consistent(db3)
      && LS.SetStatus(db1, admin, Some(1), LS.Activate).0 == Fail(409, "invalid_status")
  {
    var seller := Principal(1, "user");
    var buyer := Principal(2, "user");
    var admin := Principal(3, "admin");
    var other := Principal(4, "user");
    var db0 := Db(map[1 := Listing("lamp", 10, Active, seller.uid)], map[], [], 2, 1, 1);
    var db1 := LR.Purchase(db0, buyer, Int(1)).1;
    LegacyPurchaseKeeps(db0, buyer, Int(1));
    var db2 := LR.AdminSetStatus(db1, admin, Some(1), Active).1;
    var db3 := LR.Purchase(db2, other, Int(1)).1;
    assert db3.orders == map[1 := Order(1, 2, Created), 2 := Order(1, 4, Created)];
    assert OrdersFor(db3, 1) == {1, 2};
    assert !OneOrderPerListing(db3) by {
      assert db3.orders[1].listingId == db3.orders[2].listingId;
    }
  }
}
