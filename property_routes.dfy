/**
 * The listing routes: the public query with its filter and paging, reading one
 * listing, and the authenticated create, update and delete. Each handler is a
 * method over the shared `Database`; the caller passes the id the gate put in
 * `req.user` and, for create, the image host's upload as a function.
 */
module PropertyRoutes {
  import opened Wrappers
  import Text
  import opened Documents
  import PropertySchema
  import opened UserSchema
  import opened Store

  /** A query-string value is truthy when present and not empty. */
  predicate Truthy(x: Option<string>)
  {
    x.Some? && x.value != ""
  }

  // ---------------------------------------------------------------------------
  // GET /: the filter
  // ---------------------------------------------------------------------------

  /**
   * The query parameters the list route reads; `page` and `limit` are taken
   * as already parsed.
   */
  datatype ListQuery = ListQuery(
    q: Option<string>,
    propertyType: Option<string>,
    location: Option<string>,
    minPrice: Option<string>,
    maxPrice: Option<string>,
    page: Option<int>,
    limit: Option<int>)

  /** The `price` sub-filter: `$gte` and `$lte`, each optional. */
  datatype PriceRange = PriceRange(gte: Option<Value>, lte: Option<Value>)

  /** The filter object: `$text`, `propertyType`, `locationText` and `price`, each optional. */
  datatype Filter = Filter(
    text: Option<string>,
    propertyType: Option<string>,
    locationText: Option<string>,
    price: Option<PriceRange>)

  /** The keys present in a filter object. */
  function FilterKeys(f: Filter): set<string>
  {
    (if f.text.Some? then {"$text"} else {})
    + (if f.propertyType.Some? then {"propertyType"} else {})
    + (if f.locationText.Some? then {"locationText"} else {})
    + (if f.price.Some? then {"price"} else {})
  }

  /** The keys the truthy parameters of `query` ask for. */
  function RequestedKeys(query: ListQuery): set<string>
  {
    (if Truthy(query.q) then {"$text"} else {})
    + (if Truthy(query.propertyType) then {"propertyType"} else {})
    + (if Truthy(query.location) then {"locationText"} else {})
    + (if Truthy(query.minPrice) || Truthy(query.maxPrice) then {"price"} else {})
  }

  /** The `price` sub-filter: present when either bound is, each bound from its own parameter. */
  function PriceFilter(minPrice: Option<string>, maxPrice: Option<string>): (r: Option<PriceRange>)
    ensures r.Some? <==> Truthy(minPrice) || Truthy(maxPrice)
    ensures r.Some? ==>
      && (r.value.gte.Some? <==> Truthy(minPrice))
      && (r.value.lte.Some? <==> Truthy(maxPrice))
      && (r.value.gte.Some? ==> r.value.gte.value == ToNumber(minPrice))
      && (r.value.lte.Some? ==> r.value.lte.value == ToNumber(maxPrice))
  {
    if Truthy(minPrice) || Truthy(maxPrice) then
      Some(PriceRange(
        if Truthy(minPrice) then Some(ToNumber(minPrice)) else None,
        if Truthy(maxPrice) then Some(ToNumber(maxPrice)) else None))
    else None
  }

  /** The filter a query asks for, one key per truthy parameter. */
  function FilterFor(query: ListQuery): (f: Filter)
    ensures FilterKeys(f) == RequestedKeys(query)
    ensures f.text.Some? ==> f.text == query.q
    ensures f.propertyType.Some? ==> f.propertyType == query.propertyType
    ensures f.locationText.Some? ==> f.locationText == query.location
    ensures f.price == PriceFilter(query.minPrice, query.maxPrice)
  {
    Filter(
      if Truthy(query.q) then query.q else None,
      if Truthy(query.propertyType) then query.propertyType else None,
      if Truthy(query.location) then query.location else None,
      PriceFilter(query.minPrice, query.maxPrice))
  }

  /** The handler's filter building: an empty object that gains one key per truthy parameter. */
  method BuildFilter(query: ListQuery) returns (f: Filter)
    ensures f == FilterFor(query)
  {
    f := Filter(None, None, None, None);
    if Truthy(query.q) {
      f := f.(text := query.q);
    }
    if Truthy(query.propertyType) {
      f := f.(propertyType := query.propertyType);
    }
    if Truthy(query.location) {
      f := f.(locationText := query.location);
    }
    if Truthy(query.minPrice) || Truthy(query.maxPrice) {
      f := f.(price := Some(PriceRange(None, None)));
    }
    if Truthy(query.minPrice) {
      f := f.(price := Some(f.price.value.(gte := Some(ToNumber(query.minPrice)))));
    }
    if Truthy(query.maxPrice) {
      f := f.(price := Some(f.price.value.(lte := Some(ToNumber(query.maxPrice)))));
    }
  }

  // ---------------------------------------------------------------------------
  // GET /: matching, ordering and paging
  // ---------------------------------------------------------------------------

  /** `n` satisfies an optional bound; a bound that is not a number admits nothing. */
  predicate AtLeast(n: int, bound: Option<Value>)
  {
    bound.None? || (bound.value.Num? && n >= bound.value.n)
  }

  predicate AtMost(n: int, bound: Option<Value>)
  {
    bound.None? || (bound.value.Num? && n <= bound.value.n)
  }

  /**
   * A record satisfies every key of the filter. `search` stands for the text
   * index's keyword match; the location pattern is read as a literal,
   * case-insensitive substring; the price bounds compare numbers only.
   */
  predicate Matches(d: Doc, f: Filter, search: (Doc, string) -> bool)
    ensures f == Filter(None, None, None, None) ==> Matches(d, f, search)
    ensures f.locationText.Some? && "locationText" !in d ==> !Matches(d, f, search)
    ensures f.price.Some? && "price" in d && d["price"].Obj? ==> !Matches(d, f, search)
    ensures Matches(d, f, search) && f.propertyType.Some? ==> Get(d, "propertyType") == Some(Str(f.propertyType.value))
  {
    && (f.text.Some? ==> search(d, f.text.value))
    && (f.propertyType.Some? ==> Get(d, "propertyType") == Some(Str(f.propertyType.value)))
    && (f.locationText.Some? ==>
          "locationText" in d && d["locationText"].Str?
          && Text.ContainsIgnoringCase(d["locationText"].s, f.locationText.value))
    && (f.price.Some? ==>
          "price" in d && d["price"].Num?
          && AtLeast(d["price"].n, f.price.value.gte) && AtMost(d["price"].n, f.price.value.lte))
  }

  /** `Property.find(filter)` before sorting: the matching listings in store order. */
  function Find(ls: seq<Listing>, f: Filter, search: (Doc, string) -> bool): (r: seq<Listing>)
    ensures |r| <= |ls|
    ensures forall l :: l in r <==> l in ls && Matches(l.doc, f, search)
  {
    if ls == [] then []
    else (if Matches(ls[0].doc, f, search) then [ls[0]] else []) + Find(ls[1..], f, search)
  }

  /** Matching keeps store order and multiplicity: the matches of two runs are each run's matches in turn. */
  lemma {:induction false} FindAppend(a: seq<Listing>, b: seq<Listing>, f: Filter, search: (Doc, string) -> bool)
    ensures Find(a + b, f, search) == Find(a, f, search) + Find(b, f, search)
  {
    if a == [] {
      assert a + b == b;
    } else {
      assert (a + b)[0] == a[0];
      assert (a + b)[1..] == a[1..] + b;
      FindAppend(a[1..], b, f, search);
    }
  }

  /** A single listing is found exactly when it matches. */
  lemma FindOne(l: Listing, f: Filter, search: (Doc, string) -> bool)
    ensures Find([l], f, search) == if Matches(l.doc, f, search) then [l] else []
  {
    assert [l][1..] == [];
  }

  /** Sorting by `createdAt` descending: the store keeps insertion order, so newest first is the reverse. */
  function Newest(ls: seq<Listing>): (r: seq<Listing>)
    ensures |r| == |ls|
    ensures forall i :: 0 <= i < |ls| ==> r[i] == ls[|ls| - 1 - i]
  {
    if ls == [] then [] else Newest(ls[1..]) + [ls[0]]
  }

  /** `.skip(skip).limit(limit)`; a limit of 0 means no limit. */
  function Window(xs: seq<Listing>, skip: nat, limit: nat): (r: seq<Listing>)
    ensures limit > 0 ==> |r| <= limit
    ensures skip >= |xs| ==> r == []
    ensures skip < |xs| ==> skip + |r| <= |xs| && r == xs[skip..skip + |r|]
    ensures limit == 0 || limit >= |xs| - skip ==> |r| == if skip >= |xs| then 0 else |xs| - skip
    ensures skip < |xs| && 0 < limit < |xs| - skip ==> |r| == limit
  {
    var rest := if skip >= |xs| then [] else xs[skip..];
    if limit == 0 || limit >= |rest| then rest else rest[..limit]
  }

  const DefaultPage: int := 1
  const DefaultLimit: int := 12

  function PageOf(query: ListQuery): int { query.page.GetOr(DefaultPage) }
  function LimitOf(query: ListQuery): int { query.limit.GetOr(DefaultLimit) }

  /**
   * How many documents `.limit(n)` lets through: a negative `n` asks the
   * database for at most `-n` documents in a single batch.
   */
  function CursorLimit(limit: int): (r: nat)
    ensures r == 0 <==> limit == 0
    ensures limit >= 0 ==> r == limit
    ensures limit < 0 ==> r == -limit
  {
    if limit < 0 then -limit else limit
  }

  /** `(page - 1) * limit`. */
  function Skip(query: ListQuery): int
  {
    (PageOf(query) - 1) * LimitOf(query)
  }

  /**
   * `Math.ceil(total / limit)`; dividing by a zero limit gives a value JSON
   * writes as `null`, and a negative limit gives a page count of zero or less.
   */
  function Pages(total: nat, limit: int): (r: Option<int>)
    ensures r.None? <==> limit == 0
    ensures r.Some? && limit > 0 ==> (r.value - 1) * limit < total <= r.value * limit
    ensures r.Some? && limit < 0 ==> r.value * limit <= total < (r.value - 1) * limit
    ensures r.Some? && limit > 0 ==> (r.value == 0 <==> total == 0)
    ensures r.Some? && limit < 0 ==> r.value <= 0
  {
    if limit == 0 then None
    else if limit > 0 then Some((total + limit - 1) / limit)
    else Some(-(total / -limit))
  }

  // ---------------------------------------------------------------------------
  // replies
  // ---------------------------------------------------------------------------

  /** The public fields of the populated seller. */
  datatype Contact = Contact(id: Id, name: string, email: string)

  datatype Reply =
    | Listed(items: seq<Listing>, total: nat, page: int, pages: Option<int>)
    | Found(listing: Listing, seller: Option<Contact>)
    | Created(listing: Listing)
    | Saved(listing: Listing)
    | Removed
    | Failure(status: int, error: string)
    /** The handler's promise rejects and no response is written. */
    | Unhandled

  function Status(r: Reply): int
  {
    match r
    case Listed(_, _, _, _) => 200
    case Found(_, _) => 200
    case Created(_) => 201
    case Saved(_) => 200
    case Removed => 200
    case Failure(s, _) => s
    case Unhandled => 0
  }

  const NotFound: Reply := Failure(404, "Not found")
  const Forbidden: Reply := Failure(403, "Forbidden")
  const FetchFailed: Reply := Failure(500, "Failed to fetch properties")
  const CreateFailed: Reply := Failure(400, "Create failed")

  /** What `GET /` answers for `query` over the stored listings. */
  function ListReply(ls: seq<Listing>, query: ListQuery, search: (Doc, string) -> bool): (r: Reply)
    ensures r == FetchFailed <==> Skip(query) < 0
    ensures r != FetchFailed ==>
      var matches := Find(ls, FilterFor(query), search);
      && r.Listed? && r.total == |matches| && r.page == PageOf(query) && r.pages == Pages(|matches|, LimitOf(query))
      && r.items == Window(Newest(matches), Skip(query), CursorLimit(LimitOf(query)))
  {
    var skip := Skip(query);
    if skip < 0 then FetchFailed
    else
      var matches := Find(ls, FilterFor(query), search);
      Listed(Window(Newest(matches), skip, CursorLimit(LimitOf(query))), |matches|, PageOf(query), Pages(|matches|, LimitOf(query)))
  }

  /**
   * `GET /`: build the filter, then fetch the page and count the matches
   * with the same filter; a negative skip makes the query fail.
   */
  method ListProperties(db: Database, query: ListQuery, search: (Doc, string) -> bool) returns (reply: Reply)
    ensures reply == ListReply(db.listings, query, search)
  {
    var f := BuildFilter(query);
    var skip := (PageOf(query) - 1) * LimitOf(query);
    if skip < 0 {
      return FetchFailed;
    }
    var matches := Find(db.listings, f, search);
    var items := Window(Newest(matches), skip, CursorLimit(LimitOf(query)));
    reply := Listed(items, |matches|, PageOf(query), Pages(|matches|, LimitOf(query)));
  }

  /**
   * A listed page holds at most `limit` listings, each of them stored and
   * matching the filter, newest first; `total` counts every match of the
   * same filter, whatever the page.
   */
  lemma ListReplyBounds(ls: seq<Listing>, query: ListQuery, search: (Doc, string) -> bool)
    requires ListReply(ls, query, search).Listed?
    ensures var r := ListReply(ls, query, search);
      && (LimitOf(query) != 0 ==> |r.items| <= CursorLimit(LimitOf(query)))
      && (forall l :: l in r.items ==> l in ls && Matches(l.doc, FilterFor(query), search))
      && r.total == |Find(ls, FilterFor(query), search)|
      && |r.items| <= r.total
  {
    var f := FilterFor(query);
    var matches := Find(ls, f, search);
    WindowOfNewest(matches, Skip(query), CursorLimit(LimitOf(query)));
  }

  /**
   * A negative `limit` fails every page after the first, whose skip is then
   * negative; on the first page (or below) it lets at most `-limit` listings
   * through and reports a page count of zero or less.
   */
  lemma NegativeLimit(ls: seq<Listing>, query: ListQuery, search: (Doc, string) -> bool)
    requires LimitOf(query) < 0
    ensures PageOf(query) >= 2 ==> ListReply(ls, query, search) == FetchFailed
    ensures PageOf(query) <= 1 ==>
      var r := ListReply(ls, query, search);
      r.Listed? && |r.items| <= -LimitOf(query) && r.pages.Some? && r.pages.value <= 0
  {
    var page, limit := PageOf(query), LimitOf(query);
    if page >= 2 {
      assert (page - 1) * limit < 0 by { MulSign(page - 1, -limit); }
    } else {
      assert (page - 1) * limit >= 0 by { MulSign(1 - page, -limit); }
    }
  }

  /** The product of a non-negative and a positive number is non-negative, and positive when both are. */
  lemma MulSign(a: int, b: int)
    requires a >= 0 && b > 0
    ensures a * b >= 0 && (a > 0 ==> a * b > 0)
  {
  }

  /** A page of the newest-first order holds only members of the ordered run. */
  lemma WindowOfNewest(matches: seq<Listing>, skip: nat, limit: nat)
    ensures forall l :: l in Window(Newest(matches), skip, limit) ==> l in matches
  {
    var newest := Newest(matches);
    var items := Window(newest, skip, limit);
    forall l | l in items
      ensures l in matches
    {
      var k :| 0 <= k < |items| && items[k] == l;
      assert l == newest[skip + k];
      assert l == matches[|matches| - 1 - (skip + k)];
    }
  }

  /** Without `page` and `limit` the route answers the first twelve matches, newest first. */
  lemma DefaultFirstPage(ls: seq<Listing>, query: ListQuery, search: (Doc, string) -> bool)
    requires query.page.None? && query.limit.None?
    ensures Skip(query) == 0
    ensures var matches := Find(ls, FilterFor(query), search);
      ListReply(ls, query, search) == Listed(
        if |matches| <= 12 then Newest(matches) else Newest(matches)[..12],
        |matches|, 1, Some((|matches| + 11) / 12))
  {
  }

  /** A query with no truthy parameter filters nothing out. */
  lemma {:induction false} EmptyFilterMatchesAll(ls: seq<Listing>, query: ListQuery, search: (Doc, string) -> bool)
    requires RequestedKeys(query) == {}
    ensures Find(ls, FilterFor(query), search) == ls
  {
    if ls != [] {
      EmptyFilterMatchesAll(ls[1..], query, search);
      assert ls == [ls[0]] + ls[1..];
    }
  }

  /**
   * The location and price filters name fields the strict schema never
   * stores (`locationText`, and a numeric `price` where the schema keeps an
   * object): with either one in the query, no stored listing matches.
   */
  lemma LocationAndPriceFiltersMatchNothing(ls: seq<Listing>, query: ListQuery, search: (Doc, string) -> bool)
    requires AllStored(ls)
    requires Truthy(query.location) || Truthy(query.minPrice) || Truthy(query.maxPrice)
    ensures Find(ls, FilterFor(query), search) == []
  {
    var f := FilterFor(query);
    var r := Find(ls, f, search);
    if r != [] {
      assert r[0] in r;
      StoredMember(ls, r[0]);
      StoredNeverMatches(r[0].doc, f, search);
    }
  }

  /** A stored record has no `locationText` and keeps `price` as an object. */
  lemma StoredNeverMatches(d: Doc, f: Filter, search: (Doc, string) -> bool)
    requires IsStored(d)
    requires f.locationText.Some? || f.price.Some?
    ensures !Matches(d, f, search)
  {
    if f.locationText.Some? {
      StoredHasNoLocationText(d);
    } else {
      StoredPriceIsObject(d);
    }
  }

  /** Strict mode drops `locationText`, which the schema does not declare. */
  lemma StoredHasNoLocationText(d: Doc)
    requires IsStored(d)
    ensures "locationText" !in d
  {
    PropertySchema.LocationTextUndeclared();
    PropertySchema.NormalizeDropsUndeclared(d, "locationText");
  }

  /** A stored `price` is the schema's object, never a bare number. */
  lemma StoredPriceIsObject(d: Doc)
    requires IsStored(d)
    ensures "price" in d && d["price"].Obj?
  {
    PropertySchema.ConformsEnums(d);
  }

  // ---------------------------------------------------------------------------
  // GET /:id
  // ---------------------------------------------------------------------------

  /** `populate("seller", "name email")`: the seller's public fields, or none when the user is gone. */
  function SellerContact(users: map<Id, User>, d: Doc): (r: Option<Contact>)
    ensures r.Some? ==> Get(d, "seller") == Some(Str(r.value.id)) && r.value.id in users
                        && r.value.name == users[r.value.id].name && r.value.email == users[r.value.id].email
    ensures r.Some? <==> exists s :: Get(d, "seller") == Some(Str(s)) && s in users
  {
    match Get(d, "seller")
    case Some(Str(s)) =>
      if s in users then Some(Contact(s, users[s].name, users[s].email)) else None
    case _ => None
  }

  /** `GET /:id`: the listing with its seller's contact, or 404. */
  function ShowProperty(ls: seq<Listing>, users: map<Id, User>, id: Id): (r: Reply)
    ensures r == NotFound <==> forall i :: 0 <= i < |ls| ==> ls[i].id != id
    ensures r != NotFound ==> r.Found? && r.listing.id == id && r.listing in ls
    ensures r.Found? ==> r.seller == SellerContact(users, r.listing.doc)
  {
    match FindListing(ls, id)
    case None => NotFound
    case Some(i) => Found(ls[i], SellerContact(users, ls[i].doc))
  }

  // ---------------------------------------------------------------------------
  // POST /
  // ---------------------------------------------------------------------------

  /** An uploaded file as the upload middleware hands it over. */
  datatype File = File(mimetype: string, content: seq<bv8>)

  /**
   * The secure URLs the image host returns for `files`, uploaded one by one;
   * `None` when some upload is rejected.
   */
  function Uploaded(files: seq<File>, upload: File -> Option<string>): (r: Option<seq<string>>)
    ensures r.None? <==> exists i :: 0 <= i < |files| && upload(files[i]).None?
    ensures r.Some? ==> |r.value| == |files| && forall i :: 0 <= i < |files| ==> upload(files[i]) == Some(r.value[i])
  {
    if files == [] then Some([])
    else
      var init := Uploaded(files[..|files| - 1], upload);
      match upload(files[|files| - 1])
      case None => None
      case Some(url) => if init.None? then None else Some(init.value + [url])
  }

  /** A text field of the multipart body. */
  function Field(body: map<string, string>, k: string): (r: Option<string>)
    ensures r.Some? <==> k in body
  {
    if k in body then Some(body[k]) else None
  }

  /** Sets `k` when `v` is present; an `undefined` property is not written. */
  function PutStr(d: Doc, k: string, v: Option<string>): (r: Doc)
    ensures r == if v.Some? then d[k := Str(v.value)] else d
  {
    if v.Some? then d[k := Str(v.value)] else d
  }

  /** The text fields the create route copies as sent. */
  const TextFields: set<string> := {"title", "description", "locationText", "propertyType"}

  /** Copies the text fields present in `body` onto `d`. */
  function WithText(d: Doc, body: map<string, string>): (r: Doc)
    ensures forall k :: k !in TextFields ==> Get(r, k) == Get(d, k)
    ensures forall k :: k in TextFields ==> Get(r, k) == if k in body then Some(Str(body[k])) else Get(d, k)
  {
    var d := PutStr(d, "title", Field(body, "title"));
    var d := PutStr(d, "description", Field(body, "description"));
    var d := PutStr(d, "locationText", Field(body, "locationText"));
    PutStr(d, "propertyType", Field(body, "propertyType"))
  }

  /** `[Number(lng), Number(lat)]` as a GeoJSON point. */
  function Point(lng: Option<string>, lat: Option<string>): Value
  {
    Obj(map["type" := Str("Point"), "coordinates" := Arr([ToNumber(lng), ToNumber(lat)])])
  }

  /** `sizeSqft` through `Number`, written only when the field is truthy. */
  function WithSize(d: Doc, body: map<string, string>): (r: Doc)
    ensures forall k :: k != "sizeSqft" ==> Get(r, k) == Get(d, k)
    ensures Get(r, "sizeSqft") ==
      if Truthy(Field(body, "sizeSqft")) then Some(ToNumber(Field(body, "sizeSqft"))) else Get(d, "sizeSqft")
  {
    var size := Field(body, "sizeSqft");
    if Truthy(size) then d["sizeSqft" := ToNumber(size)] else d
  }

  /** The coordinates, written only when `lng` and `lat` are both truthy. */
  function WithCoordinates(d: Doc, body: map<string, string>): (r: Doc)
    ensures forall k :: k != "coordinates" ==> Get(r, k) == Get(d, k)
    ensures Get(r, "coordinates") ==
      if Truthy(Field(body, "lng")) && Truthy(Field(body, "lat"))
      then Some(Point(Field(body, "lng"), Field(body, "lat"))) else Get(d, "coordinates")
  {
    var lng, lat := Field(body, "lng"), Field(body, "lat");
    if Truthy(lng) && Truthy(lat) then d["coordinates" := Point(lng, lat)] else d
  }

  /**
   * The object the create route passes to the model: the text fields as
   * sent, `price` through `Number`, `sizeSqft` only when truthy, the uploaded
   * URLs, the caller as seller, and coordinates only when both `lng` and
   * `lat` are truthy.
   */
  function RouteDocument(body: map<string, string>, urls: seq<string>, seller: Id): (d: Doc)
    ensures Get(d, "price") == Some(ToNumber(Field(body, "price")))
    ensures Get(d, "images") == Some(Arr(Strs(urls))) && Get(d, "seller") == Some(Str(seller))
    ensures Get(d, "sizeSqft") ==
      if Truthy(Field(body, "sizeSqft")) then Some(ToNumber(Field(body, "sizeSqft"))) else None
    ensures "coordinates" in d <==> Truthy(Field(body, "lng")) && Truthy(Field(body, "lat"))
    ensures "postedBy" !in d && "location" !in d
  {
    var base := map["price" := ToNumber(Field(body, "price")), "images" := Arr(Strs(urls)), "seller" := Str(seller)];
    BaseKeys(body, urls, seller);
    RouteStages(base, body);
    OptionalStages(base, body);
    WithCoordinates(WithSize(WithText(base, body), body), body)
  }

  /** The object the create route starts from holds exactly `price`, `images` and `seller`. */
  lemma BaseKeys(body: map<string, string>, urls: seq<string>, seller: Id)
    ensures var base := map["price" := ToNumber(Field(body, "price")), "images" := Arr(Strs(urls)), "seller" := Str(seller)];
      && "postedBy" !in base && "location" !in base && "sizeSqft" !in base && "coordinates" !in base
  {
    assert |"postedBy"| == 8 && |"location"| == 8 && |"sizeSqft"| == 8 && |"coordinates"| == 11;
  }

  /** The three stages leave every key the route sets itself as it was. */
  lemma RouteStages(base: Doc, body: map<string, string>)
    ensures var d := WithCoordinates(WithSize(WithText(base, body), body), body);
      && Get(d, "price") == Get(base, "price") && Get(d, "images") == Get(base, "images")
      && Get(d, "seller") == Get(base, "seller") && Get(d, "postedBy") == Get(base, "postedBy")
      && Get(d, "location") == Get(base, "location")
  {
    UntouchedKeys();
    var t := WithText(base, body);
    var z := WithSize(t, body);
    assert Get(t, "price") == Get(base, "price") && Get(t, "images") == Get(base, "images");
    assert Get(t, "seller") == Get(base, "seller") && Get(t, "postedBy") == Get(base, "postedBy");
    assert Get(t, "location") == Get(base, "location");
    assert Get(z, "price") == Get(t, "price") && Get(z, "images") == Get(t, "images");
    assert Get(z, "seller") == Get(t, "seller") && Get(z, "postedBy") == Get(t, "postedBy");
    assert Get(z, "location") == Get(t, "location");
  }

  /** `sizeSqft` and `coordinates` are written only when the body supplies them. */
  lemma OptionalStages(base: Doc, body: map<string, string>)
    ensures var d := WithCoordinates(WithSize(WithText(base, body), body), body);
      && Get(d, "sizeSqft") ==
           (if Truthy(Field(body, "sizeSqft")) then Some(ToNumber(Field(body, "sizeSqft"))) else Get(base, "sizeSqft"))
      && ("coordinates" in d <==> (Truthy(Field(body, "lng")) && Truthy(Field(body, "lat"))) || "coordinates" in base)
  {
    var t := WithText(base, body);
    var z := WithSize(t, body);
    assert "sizeSqft" !in TextFields && "sizeSqft" != "coordinates" && "coordinates" !in TextFields;
    assert Get(t, "sizeSqft") == Get(base, "sizeSqft");
    assert Get(t, "coordinates") == Get(base, "coordinates");
    assert Get(z, "coordinates") == Get(base, "coordinates");
  }

  /** The keys the create route sets itself are none that the three stages write. */
  lemma UntouchedKeys()
    ensures "price" !in TextFields && "price" != "sizeSqft" && "price" != "coordinates"
    ensures "images" !in TextFields && "images" != "sizeSqft" && "images" != "coordinates"
    ensures "seller" !in TextFields && "seller" != "sizeSqft" && "seller" != "coordinates"
    ensures "postedBy" !in TextFields && "postedBy" != "sizeSqft" && "postedBy" != "coordinates"
    ensures "location" !in TextFields && "location" != "sizeSqft" && "location" != "coordinates"
  {
    assert |"price"| == 5 && "price"[2] != "propertyType"[2];
    assert "postedBy"[1] != "propertyType"[1];
    assert "location"[1] != "locationText"[1] || |"location"| != |"locationText"|;
  }

  /**
   * The create route's object never passes the schema: it supplies no
   * `postedBy` and no `location`, and its numeric `price` is not the object
   * the schema declares, so `price.amount` is missing too.
   */
  lemma CreateAsWrittenFails(body: map<string, string>, urls: seq<string>, seller: Id)
    ensures var errors := PropertySchema.SchemaErrors(PropertySchema.Normalize(RouteDocument(body, urls, seller)));
      && "postedBy" in errors && "location.district" in errors && "location.city" in errors
      && "price.amount" in errors
  {
    var d := RouteDocument(body, urls, seller);
    PropertySchema.NormalizeKeepsShape(d);
    MissingFieldsErrors(PropertySchema.Normalize(d));
  }

  /** A record without `postedBy` and `location`, whose `price` is no object, fails those four paths. */
  lemma MissingFieldsErrors(n: Doc)
    requires "postedBy" !in n && "location" !in n && "price" in n && !n["price"].Obj?
    ensures var errors := PropertySchema.SchemaErrors(n);
      && "postedBy" in errors && "location.district" in errors && "location.city" in errors
      && "price.amount" in errors
  {
    PropertySchema.ErrorsSplit(n);
  }

  /**
   * `POST /`: upload the files in order, then create the listing from the
   * route's object; a rejected upload and a refused record both answer 400.
   */
  method CreateProperty(db: Database, userId: Id, body: map<string, string>, files: seq<File>,
                        upload: File -> Option<string>, newId: Id) returns (reply: Reply)
    requires db.Valid() && FindListing(db.listings, newId).None?
    modifies db
    ensures db.Valid()
    ensures db.users == old(db.users) && db.imageDeletes == old(db.imageDeletes)
    ensures Uploaded(files, upload).None? ==> reply == CreateFailed && db.listings == old(db.listings)
    ensures Uploaded(files, upload).Some? ==>
      var d := PropertySchema.Normalize(RouteDocument(body, Uploaded(files, upload).value, userId));
      if PropertySchema.Conforms(d) then reply == Created(Listing(newId, d)) && db.listings == old(db.listings) + [Listing(newId, d)]
      else reply == CreateFailed && db.listings == old(db.listings)
  {
    var urls := UploadAll(files, upload);
    if urls.None? {
      return CreateFailed;
    }
    var doc := RouteDocument(body, urls.value, userId);
    var errors := db.CreateListing(doc, newId);
    if errors == [] {
      reply := Created(Listing(newId, PropertySchema.Normalize(doc)));
    } else {
      reply := CreateFailed;
    }
  }

  /**
   * The upload loop of `POST /`: each file in turn goes to the image host,
   * and the first rejected upload ends the handler.
   */
  method UploadAll(files: seq<File>, upload: File -> Option<string>) returns (urls: Option<seq<string>>)
    ensures urls == Uploaded(files, upload)
  {
    var done: seq<string> := [];
    var i := 0;
    while i < |files|
      invariant 0 <= i <= |files|
      invariant Uploaded(files[..i], upload) == Some(done)
    {
      var url := upload(files[i]);
      if url.None? {
        assert upload(files[i]).None?;
        return None;
      }
      assert files[..i + 1][..i] == files[..i];
      done := done + [url.value];
      i := i + 1;
    }
    assert files[..i] == files;
    return Some(done);
  }

  /** Hence every create answers 400 and stores nothing. */
  lemma CreateAlwaysRefused(body: map<string, string>, urls: seq<string>, seller: Id)
    ensures !PropertySchema.Conforms(PropertySchema.Normalize(RouteDocument(body, urls, seller)))
  {
    CreateAsWrittenFails(body, urls, seller);
  }

  // ---------------------------------------------------------------------------
  // PUT /:id and DELETE /:id
  // ---------------------------------------------------------------------------

  /** `Object.assign(prop, body)`: every key of the body overwrites the record's, the rest stay. */
  function Assign(rec: Doc, body: Doc): (r: Doc)
    ensures forall k :: k in body ==> Get(r, k) == Some(body[k])
    ensures forall k :: k !in body ==> Get(r, k) == Get(rec, k)
  {
    rec + body
  }

  /**
   * `PUT /:id`: 404 when no listing has the id, 403 when the caller is not
   * its seller, otherwise the body is assigned onto the record and saved; a
   * record the validators refuse makes the save reject, which the handler
   * does not catch.
   */
  method UpdateProperty(db: Database, id: Id, userId: Id, body: Doc) returns (reply: Reply)
    requires db.Valid()
    modifies db
    ensures db.Valid()
    ensures db.users == old(db.users) && db.imageDeletes == old(db.imageDeletes)
    ensures FindListing(old(db.listings), id).None? ==> reply == NotFound && db.listings == old(db.listings)
    ensures FindListing(old(db.listings), id).Some? ==>
      var i := FindListing(old(db.listings), id).value;
      var merged := PropertySchema.Normalize(Assign(old(db.listings)[i].doc, body));
      if !OwnedBy(old(db.listings)[i], userId) then reply == Forbidden && db.listings == old(db.listings)
      else if PropertySchema.Conforms(merged) then
        reply == Saved(Listing(id, merged)) && db.listings == old(db.listings)[i := Listing(id, merged)]
      else reply == Unhandled && db.listings == old(db.listings)
  {
    var found := FindListing(db.listings, id);
    if found.None? {
      return NotFound;
    }
    var i := found.value;
    if !OwnedBy(db.listings[i], userId) {
      return Forbidden;
    }
    var doc := Assign(db.listings[i].doc, body);
    var errors := db.SaveListing(i, doc);
    if errors == [] {
      reply := Saved(db.listings[i]);
    } else {
      reply := Unhandled;
    }
  }

  /** A field the body leaves out keeps its stored value through an update. */
  lemma UpdateKeepsAbsentFields(rec: Doc, body: Doc, k: string)
    requires PropertySchema.Normalize(rec) == rec && k !in body
    ensures Get(PropertySchema.Normalize(Assign(rec, body)), k) == Get(rec, k)
  {
    PropertySchema.NormalizePointwise(Assign(rec, body), rec, k);
  }

  /** A declared field the body names takes the body's value, through the schema's setters. */
  lemma UpdateCopiesBodyFields(rec: Doc, body: Doc, k: string)
    requires k in body && k in PropertySchema.SchemaKeys
    ensures Get(PropertySchema.Normalize(Assign(rec, body)), k) == Some(PropertySchema.CastValue(k, body[k]))
  {
    assert Get(PropertySchema.Normalize(Assign(rec, body)), k)
        == PropertySchema.NormalizeField(k, Get(Assign(rec, body), k));
  }

  /**
   * Nothing guards `seller`: an owner's update naming another seller passes
   * the validators, and afterwards the former owner is refused.
   */
  lemma OwnerCanReassignSeller(l: Listing, other: Id)
    requires IsStored(l.doc) && other != ""
    ensures var merged := PropertySchema.Normalize(Assign(l.doc, map["seller" := Str(other)]));
      && merged == l.doc["seller" := Str(other)]
      && PropertySchema.Conforms(merged)
      && OwnedBy(Listing(l.id, merged), other)
  {
    SellerCastUnchanged(other);
    AssignOneField(l.doc, "seller", Str(other));
    SellerChangeConforms(l.doc, other);
  }

  /**
   * An update's values go through the schema's casts: a `sizeSqft` sent as
   * a numeral string is saved as that number, and the record still conforms.
   */
  lemma UpdateCastsSize(l: Listing, n: nat)
    requires IsStored(l.doc)
    ensures var merged := PropertySchema.Normalize(Assign(l.doc, map["sizeSqft" := Str(Decimal(n))]));
      && merged == l.doc["sizeSqft" := Num(n)]
      && PropertySchema.Conforms(merged)
  {
    SizeCast(n);
    AssignOneField(l.doc, "sizeSqft", Str(Decimal(n)));
    SizeChangeConforms(l.doc, n);
  }

  lemma SizeCast(n: nat)
    ensures PropertySchema.CastValue("sizeSqft", Str(Decimal(n))) == Num(n)
  {
    ToNumberDecimal(n);
  }

  /** Any number of square feet keeps a conforming record conforming. */
  lemma SizeChangeConforms(d: Doc, n: int)
    requires PropertySchema.Conforms(d)
    ensures PropertySchema.Conforms(d["sizeSqft" := Num(n)])
  {
    var d' := d["sizeSqft" := Num(n)];
    assert PropertySchema.Sub(d', "location") == PropertySchema.Sub(d, "location");
    assert PropertySchema.Sub(d', "price") == PropertySchema.Sub(d, "price");
    var v, v' := PropertySchema.Validations(d), PropertySchema.Validations(d');
    assert forall i :: 0 <= i < |PropertySchema.ValidatedPaths| ==> v[i];
    assert forall i :: 0 <= i < |PropertySchema.ValidatedPaths| && i != 9 ==> v'[i] == v[i];
    assert v'[9];
  }

  /**
   * A nested `price` sent with a numeral `amount` is saved as that number;
   * the whole object is replaced, so `perUnit` falls back to "Total" and
   * undeclared sub-fields are dropped.
   */
  lemma UpdateCastsPrice(rec: Doc, n: nat, extra: string, x: Value)
    requires PropertySchema.Normalize(rec) == rec && extra != "amount" && extra != "perUnit"
    ensures var body := map["price" := Obj(map["amount" := Str(Decimal(n)), extra := x])];
      PropertySchema.Normalize(Assign(rec, body)) == rec["price" := Obj(map["amount" := Num(n), "perUnit" := Str("Total")])]
  {
    PriceCast(n, extra, x);
    AssignOneField(rec, "price", Obj(map["amount" := Str(Decimal(n)), extra := x]));
  }

  /** The cast of such a `price` object: the number, the default unit, and nothing else. */
  lemma PriceCast(n: nat, extra: string, x: Value)
    requires extra != "amount" && extra != "perUnit"
    ensures PropertySchema.CastValue("price", Obj(map["amount" := Str(Decimal(n)), extra := x]))
         == Obj(map["amount" := Num(n), "perUnit" := Str("Total")])
  {
    ToNumberDecimal(n);
    var f := map["amount" := Str(Decimal(n)), extra := x];
    assert PropertySchema.CastPrice(f) == map["amount" := Num(n), "perUnit" := Str("Total")];
  }

  /** Assigning one declared field onto a cast record gives the record with that field cast. */
  lemma AssignOneField(rec: Doc, key: string, v: Value)
    requires PropertySchema.Normalize(rec) == rec && key in PropertySchema.SchemaKeys
    ensures PropertySchema.Normalize(Assign(rec, map[key := v])) == rec[key := PropertySchema.CastValue(key, v)]
  {
    var body := map[key := v];
    var merged := PropertySchema.Normalize(Assign(rec, body));
    forall k
      ensures Get(merged, k) == Get(rec[key := PropertySchema.CastValue(key, v)], k)
    {
      if k == key {
        UpdateCopiesBodyFields(rec, body, k);
      } else {
        assert k !in body;
        UpdateKeepsAbsentFields(rec, body, k);
      }
    }
    GetExtensional(merged, rec[key := PropertySchema.CastValue(key, v)]);
  }

  lemma SellerCastUnchanged(other: Id)
    ensures PropertySchema.CastValue("seller", Str(other)) == Str(other)
  {
    assert "seller" !in PropertySchema.TrimmedKeys;
  }

  /** Replacing the seller of a conforming record with another non-empty id keeps it conforming. */
  lemma SellerChangeConforms(d: Doc, other: Id)
    requires PropertySchema.Conforms(d) && other != ""
    ensures PropertySchema.Conforms(d["seller" := Str(other)])
  {
    var d' := d["seller" := Str(other)];
    assert PropertySchema.Sub(d', "location") == PropertySchema.Sub(d, "location");
    assert PropertySchema.Sub(d', "price") == PropertySchema.Sub(d, "price");
    var v, v' := PropertySchema.Validations(d), PropertySchema.Validations(d');
    assert forall i :: 0 <= i < |PropertySchema.ValidatedPaths| ==> v[i];
    assert forall i :: 0 <= i < |PropertySchema.ValidatedPaths| && i != 13 ==> v'[i] == v[i];
    assert v'[13];
  }

  /**
   * `DELETE /:id`: 404 when no listing has the id, 403 when the caller is
   * not its seller, otherwise the listing is removed; its images stay at the
   * image host.
   */
  method DeleteProperty(db: Database, id: Id, userId: Id) returns (reply: Reply)
    requires db.Valid()
    modifies db
    ensures db.Valid()
    ensures db.users == old(db.users) && db.imageDeletes == old(db.imageDeletes)
    ensures FindListing(old(db.listings), id).None? ==> reply == NotFound && db.listings == old(db.listings)
    ensures FindListing(old(db.listings), id).Some? ==>
      var i := FindListing(old(db.listings), id).value;
      if !OwnedBy(old(db.listings)[i], userId) then reply == Forbidden && db.listings == old(db.listings)
      else reply == Removed && db.listings == RemoveAt(old(db.listings), i)
    ensures reply == Removed ==> FindListing(db.listings, id).None?
  {
    var found := FindListing(db.listings, id);
    if found.None? {
      return NotFound;
    }
    var i := found.value;
    if !OwnedBy(db.listings[i], userId) {
      return Forbidden;
    }
    ghost var before := db.listings;
    db.DeleteListingAt(i);
    RemovedIdGone(before, i);
    reply := Removed;
  }

  /** With unique ids, removing the listing at `i` leaves no listing with its id. */
  lemma RemovedIdGone(ls: seq<Listing>, i: nat)
    requires IdsUnique(ls) && i < |ls|
    ensures FindListing(RemoveAt(ls, i), ls[i].id).None?
  {
    var r := RemoveAt(ls, i);
    forall j | 0 <= j < |r|
      ensures r[j].id != ls[i].id
    {
      if j < i {
        assert r[j] == ls[j];
      } else {
        assert r[j] == ls[j + 1];
      }
    }
  }
}
