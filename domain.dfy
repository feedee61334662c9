/** Records of the marketplace database and the shapes requests and replies take. */
module Domain {

  datatype Option<T> = None | Some(value: T)

  /** What a handler sends back: a success status with its body, or an error
      status with the `error` string of the JSON body. */
  datatype Reply<T> = Ok(code: int, value: T) | Fail(code: int, error: string)

  datatype ListingStatus = Active | Paused | Sold

  datatype OrderStatus = Created | Shipping | Delivered | Completed

  /** The text stored in the `listings.status` column. */
  function StatusText(s: ListingStatus): string
  {
    match s
    case Active => "Active"
    case Paused => "Paused"
    case Sold => "Sold"
  }

  /** The verified token payload a request carries (`req.user`). */
  datatype Principal = Principal(uid: int, role: string)

  predicate IsAdmin(p: Principal)
  {
    p.role == "admin"
  }

  /** A row of `listings`; its id is the key it is stored under. */
  datatype Listing = Listing(title: string, price: int, status: ListingStatus, sellerId: int)

  /** A row of `orders`; its id is the key it is stored under. */
  datatype Order = Order(listingId: int, buyerId: int, status: OrderStatus)

  /** A row of `order_messages`. */
  datatype Message = Message(id: int, orderId: int, senderId: int, body: string)

  /** A table row returned to the caller together with its id. */
  datatype Row<T> = Row(id: int, data: T)

  /** An order joined with its listing: the shape of every order read of the order service. */
  datatype OrderView = OrderView(
    id: int, status: OrderStatus, buyerId: int,
    listingId: int, title: string, price: int, sellerId: int)

  /** The three tables and the next value of each id sequence. */
  datatype Db = Db(
    listings: map<int, Listing>,
    orders: map<int, Order>,
    messages: seq<Message>,
    nextListingId: int,
    nextOrderId: int,
    nextMessageId: int)

  /** The `listingId` field of a JSON request body, as far as the handlers tell its values
      apart: by JavaScript truthiness, by `Number.isInteger(Number(x))`, and by whether the
      database takes the value as an integer id. */
  datatype BodyId =
    | Missing           // the field is absent
    | Null              // the field is JSON null
    | Int(n: int)       // a JSON integer; 0 is falsy
    | IntText(n: int)   // a string that Number() and the database both read as the integer n, such as "5" or "0"
    | Falsy             // false or "": Number() gives 0, the database rejects it
    | CoercesOnly       // a truthy value Number() turns into an integer that the database rejects, such as true, [5] or "5.0"
    | NonInteger        // any other value, such as "abc", 1.5 or {}

  /** The database looks the listing up under `b.n`. */
  predicate Numeric(b: BodyId)
  {
    b.Int? || b.IntText?
  }

  /** Ids handed out by the sequences lie below the next value, so new rows never collide. */
  ghost predicate WellFormed(db: Db)
  {
    && (forall id :: id in db.listings ==> id < db.nextListingId)
    && (forall id :: id in db.orders ==> id < db.nextOrderId)
    && (forall i :: 0 <= i < |db.messages| ==> db.messages[i].id < db.nextMessageId)
    && (forall i, j :: 0 <= i < j < |db.messages| ==> db.messages[i].id < db.messages[j].id)
  }
}
