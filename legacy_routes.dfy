/** The earlier routers listing-svc/src/routes.js and order-svc/src/routes.js, behind the
    `requireAuth`/`requireAdmin` middleware of order-svc/src/jwt.js. Handlers get the
    principal `requireAuth` verified. */
module LegacyRoutes {
  import opened Domain
  import opened Sorting
  import opened Auth

  // ---------------------------------------------------------------------------
  // GET /listings: the WHERE clause and its arguments

  /** The query-string filters; each is None when absent or the empty string. */
  datatype Filters = Filters(status: Option<string>, sellerId: Option<int>, q: Option<string>)

  /** A conjunct of the WHERE clause, naming the 1-based placeholder `$slot` it compares with. */
  datatype Cond = StatusIs(slot: int) | SellerIs(slot: int) | TitleLike(slot: int)

  /** A bound query argument. */
  datatype Arg = StrArg(s: string) | IntArg(n: int)

  /** The clause and argument list the handler builds, filter by filter. */
  function Where(f: Filters): (out: (seq<Cond>, seq<Arg>))
    ensures |out.0| == |out.1|
    ensures forall k :: 0 <= k < |out.0| ==> out.0[k].slot == k + 1
    ensures |out.0| == (if f.status.Some? then 1 else 0) + (if f.sellerId.Some? then 1 else 0) + (if f.q.Some? then 1 else 0)
  {
    var (w1, a1) := if f.status.Some? then ([StatusIs(1)], [StrArg(f.status.value)]) else ([], []);
    var (w2, a2) := if f.sellerId.Some? then (w1 + [SellerIs(|a1| + 1)], a1 + [IntArg(f.sellerId.value)]) else (w1, a1);
    if f.q.Some? then (w2 + [TitleLike(|a2| + 1)], a2 + [StrArg("%" + f.q.value + "%")]) else (w2, a2)
  }

  /** The handler's `if (...) { args.push(...); wh.push(...) }` sequence. */
  method BuildWhere(f: Filters) returns (wh: seq<Cond>, args: seq<Arg>)
    ensures (wh, args) == Where(f)
    ensures |wh| == |args| && forall k :: 0 <= k < |wh| ==> wh[k].slot == k + 1
  {
    wh := [];
    args := [];
    if f.status.Some? {
      args := args + [StrArg(f.status.value)];
      wh := wh + [StatusIs(|args|)];
      assert wh == [StatusIs(1)] && args == [StrArg(f.status.value)];
    }
    if f.sellerId.Some? {
      args := args + [IntArg(f.sellerId.value)];
      wh := wh + [SellerIs(|args|)];
    }
    if f.q.Some? {
      args := args + [StrArg("%" + f.q.value + "%")];
      wh := wh + [TitleLike(|args|)];
    }
  }

  /** What a conjunct says of a listing once its placeholder is bound. */
  predicate Holds(c: Cond, args: seq<Arg>, l: Listing, ilike: (string, string) -> bool)
  {
    0 < c.slot <= |args| &&
    match c
    case StatusIs(k) => args[k - 1] == StrArg(StatusText(l.status))
    case SellerIs(k) => args[k - 1] == IntArg(l.sellerId)
    case TitleLike(k) => args[k - 1].StrArg? && ilike(l.title, args[k - 1].s)
  }

  /** The SQL the handler runs: the conjunction of the clause, or status 'Active' when there is none. */
  predicate Selected(wh: seq<Cond>, args: seq<Arg>, l: Listing, ilike: (string, string) -> bool)
  {
    if wh == [] then l.status == Active else forall k :: 0 <= k < |wh| ==> Holds(wh[k], args, l, ilike)
  }

  /** What the filters ask for, read directly: every given filter matches, and without any
      filter only Active listings. */
  predicate Wanted(f: Filters, l: Listing, ilike: (string, string) -> bool)
  {
    if f.status.None? && f.sellerId.None? && f.q.None? then l.status == Active
    else
      && (f.status.Some? ==> StatusText(l.status) == f.status.value)
      && (f.sellerId.Some? ==> l.sellerId == f.sellerId.value)
      && (f.q.Some? ==> ilike(l.title, "%" + f.q.value + "%"))
  }

  /** The built query selects exactly the listings the filters ask for. */
  lemma {:induction false} WhereMeansFilters(f: Filters, l: Listing, ilike: (string, string) -> bool)
    ensures var (wh, args) := Where(f); Selected(wh, args, l, ilike) <==> Wanted(f, l, ilike)
  {
    var (wh, args) := Where(f);
    var a1 := if f.status.Some? then [StrArg(f.status.value)] else [];
    var a2 := if f.sellerId.Some? then a1 + [IntArg(f.sellerId.value)] else a1;
    assert f.status.Some? ==> args[0] == StrArg(f.status.value);
    assert f.sellerId.Some? ==> args[|a1|] == IntArg(f.sellerId.value);
    assert f.q.Some? ==> args[|a2|] == StrArg("%" + f.q.value + "%");
    if wh != [] {
      if f.status.Some? {
        assert wh[0] == StatusIs(1);
      }
      if f.sellerId.Some? {
        assert wh[|a1|] == SellerIs(|a1| + 1);
      }
      if f.q.Some? {
        assert wh[|a2|] == TitleLike(|a2| + 1);
      }
      if Wanted(f, l, ilike) {
        forall k | 0 <= k < |wh| ensures Holds(wh[k], args, l, ilike) {
          if f.status.Some? && k == 0 {
          } else if f.sellerId.Some? && k == |a1| {
          } else {
            assert f.q.Some? && k == |a2|;
          }
        }
      }
    }
  }

  /** The listings the filters select. */
  function Matching(db: Db, f: Filters, ilike: (string, string) -> bool): (ids: set<int>)
    ensures ids <= db.listings.Keys
  {
    var (wh, args) := Where(f);
    set id | id in db.listings && Selected(wh, args, db.listings[id], ilike)
  }

  /** GET /listings?status=&sellerId=&q=: the selected listings, newest first. */
  function ListListings(db: Db, f: Filters, ilike: (string, string) -> bool): (rows: seq<Row<Listing>>)
    ensures forall k :: 0 <= k < |rows| ==> rows[k].id in db.listings && rows[k].data == db.listings[rows[k].id]
    ensures forall id :: id in db.listings ==> (id in RowIds(rows) <==> Wanted(f, db.listings[id], ilike))
    ensures forall i, j :: 0 <= i < j < |rows| ==> rows[i].id > rows[j].id
  {
    var ids := Matching(db, f, ilike);
    var rows := RowsDesc(db.listings, ids);
    assert forall id :: id in db.listings ==> (id in ids <==> Wanted(f, db.listings[id], ilike)) by {
      forall id | id in db.listings ensures id in ids <==> Wanted(f, db.listings[id], ilike) {
        WhereMeansFilters(f, db.listings[id], ilike);
      }
    }
    rows
  }

  // ---------------------------------------------------------------------------
  // Listing writes

  /** POST /listings: `title` is the empty string when missing; `price` is None when missing
      or null. A negative price is refused; the new listing is Active and the caller's. */
  function CreateListing(db: Db, p: Principal, title: string, price: Option<int>): (out: (Reply<Row<Listing>>, Db))
    ensures out.0.Fail? ==> out.1 == db
    ensures out.0.Ok? <==> title != [] && price.Some? && price.value >= 0
    ensures !out.0.Ok? ==> out.0 == Fail(400, "bad request")
    ensures out.0.Ok? ==>
      var l := Listing(title, price.value, Active, p.uid);
      && out.0 == Ok(201, Row(db.nextListingId, l))
      && out.1 == db.(listings := db.listings[db.nextListingId := l], nextListingId := db.nextListingId + 1)
  {
    if title == [] || price.None? || price.value < 0 then (Fail(400, "bad request"), db)
    else
      var id := db.nextListingId;
      var l := Listing(title, price.value, Active, p.uid);
      (Ok(201, Row(id, l)), db.(listings := db.listings[id := l], nextListingId := id + 1))
  }

  /** DELETE /listings/:id: a non-integer id is refused with 400; otherwise one conditional
      DELETE removes the listing only when the id, the seller and the status Active all match,
      and answers 404 whatever the reason when they do not. Admins get no exception. */
  function DeleteListing(db: Db, p: Principal, rawId: Option<int>): (out: (Reply<()>, Db))
    ensures out.0.Fail? ==> out.1 == db
    ensures out.0.Ok? <==>
      rawId.Some? && rawId.value in db.listings &&
      db.listings[rawId.value].sellerId == p.uid && db.listings[rawId.value].status == Active
    ensures out.0.Ok? ==> out.0 == Ok(204, ()) && out.1 == db.(listings := db.listings - {rawId.value})
    ensures rawId.None? ==> out.0 == Fail(400, "bad id")
    ensures rawId.Some? && !out.0.Ok? ==> out.0 == Fail(404, "not found or not deletable")
  {
    match rawId
    case None => (Fail(400, "bad id"), db)
    case Some(id) =>
      if id in db.listings && db.listings[id].sellerId == p.uid && db.listings[id].status == Active
      then (Ok(204, ()), db.(listings := db.listings - {id}))
      else (Fail(404, "not found or not deletable"), db)
  }

  /** PATCH /listings/:id/pause (target Paused) and /activate (target Active): admins only,
      then the status is overwritten whatever it was, Sold included. */
  function AdminSetStatus(db: Db, p: Principal, rawId: Option<int>, target: ListingStatus): (out: (Reply<Row<Listing>>, Db))
    ensures out.0.Fail? ==> out.1 == db
    ensures out.0.Ok? <==> IsAdmin(p) && rawId.Some? && rawId.value in db.listings
    ensures out.0.Ok? ==>
      var id := rawId.value;
      var l := db.listings[id].(status := target);
      out.0 == Ok(200, Row(id, l)) && out.1 == db.(listings := db.listings[id := l])
    ensures !IsAdmin(p) ==> out.0 == Fail(403, "forbidden")
    ensures IsAdmin(p) && rawId.None? ==> out.0 == Fail(400, "bad id")
    ensures IsAdmin(p) && rawId.Some? && rawId.value !in db.listings ==> out.0 == Fail(404, "not found")
  {
    match RequireAdmin(Some(p))
    case Stop(code, error) => (Fail(code, error), db)
    case Continue =>
      match rawId
      case None => (Fail(400, "bad id"), db)
      case Some(id) =>
        if id !in db.listings then (Fail(404, "not found"), db)
        else
          var l := db.listings[id].(status := target);
          (Ok(200, Row(id, l)), db.(listings := db.listings[id := l]))
  }

  // ---------------------------------------------------------------------------
  // Orders

  /** `UPDATE listings SET status='Sold' WHERE id=$1 AND status='Active'`: the table after the
      update and the number of rows it affected. */
  function MarkSold(listings: map<int, Listing>, id: int): (out: (map<int, Listing>, int))
    ensures out.1 == 1 <==> id in listings && listings[id].status == Active
    ensures out.1 == 0 <==> !(id in listings && listings[id].status == Active)
    ensures out.1 == 1 ==> out.0 == listings[id := listings[id].(status := Sold)]
    ensures out.1 == 0 ==> out.0 == listings
  {
    if id in listings && listings[id].status == Active
    then (listings[id := listings[id].(status := Sold)], 1)
    else (listings, 0)
  }

  /** What the purchase transaction requires: a value the database reads as an id, a listing
      under it that is not the caller's, and the status Active. */
  predicate Purchasable(db: Db, p: Principal, listingId: BodyId)
  {
    Numeric(listingId) && listingId.n in db.listings &&
    db.listings[listingId.n].sellerId != p.uid && db.listings[listingId.n].status == Active
  }

  /** POST /orders: `Number(listingId)` must be an integer; null passes as 0 and then matches
      no row, and a value that passes but is no id to the database makes the locked read
      throw (500). The row is checked for existence, ownership and status; the conditional
      update must affect one row; then the CREATED order is inserted and committed. */
  function Purchase(db: Db, p: Principal, listingId: BodyId): (out: (Reply<Row<Order>>, Db))
    ensures out.0.Fail? ==> out.1 == db
    ensures out.0.Ok? <==> Purchasable(db, p, listingId)
    ensures out.0.Ok? ==>
      var n := listingId.n;
      var o := Order(n, p.uid, Created);
      && out.0 == Ok(201, Row(db.nextOrderId, o))
      && out.1 == db.(listings := db.listings[n := db.listings[n].(status := Sold)],
                      orders := db.orders[db.nextOrderId := o],
                      nextOrderId := db.nextOrderId + 1)
    ensures listingId.Missing? || listingId.NonInteger? ==> out.0 == Fail(400, "bad listingId")
    ensures listingId.Null? ==> out.0 == Fail(404, "not found")
    ensures listingId.Falsy? || listingId.CoercesOnly? ==> out.0 == Fail(500, "internal")
    ensures Numeric(listingId) ==>
      && (listingId.n !in db.listings ==> out.0 == Fail(404, "not found"))
      && (listingId.n in db.listings && db.listings[listingId.n].sellerId == p.uid ==> out.0 == Fail(403, "cannot buy own listing"))
      && ((listingId.n in db.listings && db.listings[listingId.n].sellerId != p.uid &&
           db.listings[listingId.n].status != Active) ==> out.0 == Fail(409, "not purchasable"))
  {
    if listingId.Missing? || listingId.NonInteger? then (Fail(400, "bad listingId"), db)
    else if listingId.Null? then (Fail(404, "not found"), db)
    else if !Numeric(listingId) then (Fail(500, "internal"), db)   // the SELECT throws
    else
      var n := listingId.n;
      if n !in db.listings then (Fail(404, "not found"), db)
      else if db.listings[n].sellerId == p.uid then (Fail(403, "cannot buy own listing"), db)
      else if db.listings[n].status != Active then (Fail(409, "not purchasable"), db)
      else
        var (listings, affected) := MarkSold(db.listings, n);
        if affected != 1 then (Fail(409, "race condition"), db)
        else
          var id := db.nextOrderId;
          var o := Order(n, p.uid, Created);
          (Ok(201, Row(id, o)), db.(listings := listings, orders := db.orders[id := o], nextOrderId := id + 1))
  }

  /** The orders a user bought. */
  function BoughtBy(db: Db, uid: int): (ids: set<int>)
    ensures ids <= db.orders.Keys
  {
    set id | id in db.orders && db.orders[id].buyerId == uid
  }

  /** GET /orders/buyer/me: the caller's orders as stored, newest first. */
  function BuyerOrders(db: Db, uid: int): (rows: seq<Row<Order>>)
    ensures RowIds(rows) == BoughtBy(db, uid)
    ensures forall k :: 0 <= k < |rows| ==> rows[k].id in db.orders && rows[k].data == db.orders[rows[k].id] && rows[k].data.buyerId == uid
    ensures forall i, j :: 0 <= i < j < |rows| ==> rows[i].id > rows[j].id
  {
    RowsDesc(db.orders, BoughtBy(db, uid))
  }
}
