/** The handlers of services/listing-svc/server.js as functions from the database before the
    request to the reply and the database after it. The write handlers get the principal that
    `authRequired` verified; the title search of GET /listings is the parameter `ilike`, the
    database's `title ILIKE pattern` test. */
module ListingService {
  import opened Domain
  import opened Text
  import opened Sorting

  // ---------------------------------------------------------------------------
  // Reads

  /** The LIKE pattern that matches titles containing `q` anywhere. */
  function Contains(q: string): string
  {
    "%" + q + "%"
  }

  /** The ids GET /listings returns for the already trimmed query `q`: every listing whatever
      its status when `q` is empty, otherwise those whose title matches. */
  function Found(db: Db, q: string, ilike: (string, string) -> bool): (ids: set<int>)
    ensures ids <= db.listings.Keys
  {
    set id | id in db.listings && (q == [] || ilike(db.listings[id].title, Contains(q)))
  }

  /** GET /listings?q=: the query is trimmed first; every listing comes back, newest first,
      whatever its status, unless the trimmed query narrows the titles. */
  function ListListings(db: Db, q: string, ilike: (string, string) -> bool): (rows: seq<Row<Listing>>)
    ensures RowIds(rows) == Found(db, Trim(q), ilike)
    ensures AllSpace(q) ==> RowIds(rows) == db.listings.Keys
    ensures forall k :: 0 <= k < |rows| ==> rows[k].id in db.listings && rows[k].data == db.listings[rows[k].id]
    ensures forall i, j :: 0 <= i < j < |rows| ==> rows[i].id > rows[j].id
  {
    FoundEverything(db, ilike);
    RowsDesc(db.listings, Found(db, Trim(q), ilike))
  }

  lemma FoundEverything(db: Db, ilike: (string, string) -> bool)
    ensures Found(db, [], ilike) == db.listings.Keys
  {
    forall id | id in db.listings ensures id in Found(db, [], ilike) { }
  }

  /** White space around the query does not change what GET /listings returns. */
  lemma PaddedQuery(db: Db, lead: string, q: string, trail: string, ilike: (string, string) -> bool)
    requires AllSpace(lead) && AllSpace(trail) && Tight(q)
    ensures ListListings(db, lead + q + trail, ilike) == ListListings(db, q, ilike)
  {
    TrimOfPadded(lead, q, trail);
    TrimOfTight(q);
  }

  /** The listings of one seller. */
  function OwnedBy(db: Db, uid: int): (ids: set<int>)
    ensures ids <= db.listings.Keys
  {
    set id | id in db.listings && db.listings[id].sellerId == uid
  }

  /** GET /listings/mine: exactly the caller's listings, newest first, whatever their status. */
  function MyListings(db: Db, uid: int): (rows: seq<Row<Listing>>)
    ensures RowIds(rows) == OwnedBy(db, uid)
    ensures forall k :: 0 <= k < |rows| ==> rows[k].id in db.listings && rows[k].data == db.listings[rows[k].id] && rows[k].data.sellerId == uid
    ensures forall i, j :: 0 <= i < j < |rows| ==> rows[i].id > rows[j].id
  {
    RowsDesc(db.listings, OwnedBy(db, uid))
  }

  // ---------------------------------------------------------------------------
  // Writes

  /** POST /listings. `title` is the body's title, the empty string when it is missing;
      `price` is the body's price when it is a number. Any number is accepted, a negative one
      included; the new listing is Active and belongs to the caller. */
  function CreateListing(db: Db, p: Principal, title: string, price: Option<int>): (out: (Reply<Row<Listing>>, Db))
    ensures out.0.Fail? ==> out.1 == db
    ensures out.0.Ok? <==> title != [] && price.Some?
    ensures !out.0.Ok? ==> out.0 == Fail(400, "bad_request")
    ensures out.0.Ok? ==>
      var l := Listing(title, price.value, Active, p.uid);
      && out.0 == Ok(201, Row(db.nextListingId, l))
      && out.1 == db.(listings := db.listings[db.nextListingId := l], nextListingId := db.nextListingId + 1)
  {
    if title == [] || price.None? then (Fail(400, "bad_request"), db)
    else
      var id := db.nextListingId;
      var l := Listing(title, price.value, Active, p.uid);
      (Ok(201, Row(id, l)), db.(listings := db.listings[id := l], nextListingId := id + 1))
  }

  /** Who may delete, pause or reopen a listing: an admin or its seller. */
  predicate MayManage(l: Listing, p: Principal)
  {
    IsAdmin(p) || l.sellerId == p.uid
  }

  /** DELETE /listings/:id: only an Active listing goes, and only at its seller's or an
      admin's request. The reply body is `{ok: true}`. */
  function DeleteListing(db: Db, p: Principal, rawId: Option<int>): (out: (Reply<()>, Db))
    ensures out.0.Fail? ==> out.1 == db
    ensures out.0.Ok? <==>
      rawId.Some? && rawId.value in db.listings && MayManage(db.listings[rawId.value], p) &&
      db.listings[rawId.value].status == Active
    ensures out.0.Ok? ==> out.0 == Ok(200, ()) && out.1 == db.(listings := db.listings - {rawId.value})
    ensures rawId.None? ==> out.0 == Fail(400, "bad_id")
    ensures rawId.Some? && rawId.value !in db.listings ==> out.0 == Fail(404, "not_found")
    ensures rawId.Some? && rawId.value in db.listings && !MayManage(db.listings[rawId.value], p) ==>
      out.0 == Fail(403, "forbidden")
    ensures (rawId.Some? && rawId.value in db.listings && MayManage(db.listings[rawId.value], p) &&
             db.listings[rawId.value].status != Active) ==> out.0 == Fail(409, "not_active")
  {
    match rawId
    case None => (Fail(400, "bad_id"), db)
    case Some(id) =>
      if id !in db.listings then (Fail(404, "not_found"), db)
      else if !MayManage(db.listings[id], p) then (Fail(403, "forbidden"), db)
      else if db.listings[id].status != Active then (Fail(409, "not_active"), db)
      else (Ok(200, ()), db.(listings := db.listings - {id}))
  }

  /** The two status moves a seller or an admin can make. */
  datatype Toggle = Pause | Activate

  function Before(t: Toggle): ListingStatus
  {
    if t == Pause then Active else Paused
  }

  function After(t: Toggle): ListingStatus
  {
    if t == Pause then Paused else Active
  }

  /** PATCH /listings/:id/pause and /activate: pause moves Active to Paused, activate moves
      Paused to Active; any other status, Sold among them, is refused with 409. */
  function SetStatus(db: Db, p: Principal, rawId: Option<int>, t: Toggle): (out: (Reply<Row<Listing>>, Db))
    ensures out.0.Fail? ==> out.1 == db
    ensures out.0.Ok? <==>
      rawId.Some? && rawId.value in db.listings && MayManage(db.listings[rawId.value], p) &&
      db.listings[rawId.value].status == Before(t)
    ensures out.0.Ok? ==>
      var id := rawId.value;
      var l := db.listings[id].(status := After(t));
      out.0 == Ok(200, Row(id, l)) && out.1 == db.(listings := db.listings[id := l])
    ensures rawId.None? ==> out.0 == Fail(400, "bad_id")
    ensures rawId.Some? && rawId.value !in db.listings ==> out.0 == Fail(404, "not_found")
    ensures rawId.Some? && rawId.value in db.listings && !MayManage(db.listings[rawId.value], p) ==>
      out.0 == Fail(403, "forbidden")
    ensures (rawId.Some? && rawId.value in db.listings && MayManage(db.listings[rawId.value], p) &&
             db.listings[rawId.value].status != Before(t)) ==> out.0 == Fail(409, "invalid_status")
  {
    match rawId
    case None => (Fail(400, "bad_id"), db)
    case Some(id) =>
      if id !in db.listings then (Fail(404, "not_found"), db)
      else if !MayManage(db.listings[id], p) then (Fail(403, "forbidden"), db)
      else if db.listings[id].status != Before(t) then (Fail(409, "invalid_status"), db)
      else
        var l := db.listings[id].(status := After(t));
        (Ok(200, Row(id, l)), db.(listings := db.listings[id := l]))
  }

  /** No listing handler touches a Sold listing: it stays, and stays Sold. */
  lemma SoldIsAbsorbing(db: Db, p: Principal, rawId: Option<int>, t: Toggle, id: int)
    requires id in db.listings && db.listings[id].status == Sold
    ensures var after := DeleteListing(db, p, rawId).1; id in after.listings && after.listings[id] == db.listings[id]
    ensures var after := SetStatus(db, p, rawId, t).1; id in after.listings && after.listings[id] == db.listings[id]
  {
  }
}
