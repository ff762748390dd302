/**
 * The two collections the server writes to, held in one object: listings in
 * insertion order (the order an unsorted `find` returns them), users by id,
 * and the bulk image deletions sent to the image host. The methods are the
 * document-layer calls the routes make; each says exactly what it changes.
 */
module Store {
  import opened Wrappers
  import opened Documents
  import PropertySchema
  import opened UserSchema

  datatype Listing = Listing(id: Id, doc: Doc)

  predicate IdsUnique(ls: seq<Listing>)
  {
    forall i, j :: 0 <= i < j < |ls| ==> ls[i].id != ls[j].id
  }

  /** A record as the document layer keeps it: already cast, and passing every validator. */
  predicate IsStored(d: Doc)
  {
    PropertySchema.Conforms(d) && PropertySchema.Normalize(d) == d
  }

  predicate AllStored(ls: seq<Listing>)
  {
    forall i {:trigger IsStored(ls[i].doc)} :: 0 <= i < |ls| ==> IsStored(ls[i].doc)
  }

  /** Every member of a stored collection is stored. */
  lemma StoredMember(ls: seq<Listing>, l: Listing)
    requires AllStored(ls) && l in ls
    ensures IsStored(l.doc)
  {
    var k :| 0 <= k < |ls| && ls[k] == l;
  }

  lemma AllStoredAppend(ls: seq<Listing>, l: Listing)
    requires AllStored(ls) && IsStored(l.doc)
    ensures AllStored(ls + [l])
  {
    forall i | 0 <= i < |ls| + 1 ensures IsStored((ls + [l])[i].doc) {
      if i < |ls| {
        assert (ls + [l])[i] == ls[i];
      }
    }
  }

  lemma AllStoredReplace(ls: seq<Listing>, i: nat, l: Listing)
    requires AllStored(ls) && IsStored(l.doc) && i < |ls|
    ensures AllStored(ls[i := l])
  {
  }

  lemma AllStoredRemove(ls: seq<Listing>, i: nat)
    requires AllStored(ls) && i < |ls|
    ensures AllStored(ls[..i] + ls[i + 1..])
  {
    var r := ls[..i] + ls[i + 1..];
    forall k | 0 <= k < |r| ensures IsStored(r[k].doc) {
      if k < i {
        assert r[k] == ls[k];
      } else {
        assert r[k] == ls[k + 1];
      }
    }
  }

  lemma IdsUniqueReplace(ls: seq<Listing>, i: nat, l: Listing)
    requires IdsUnique(ls) && i < |ls| && l.id == ls[i].id
    ensures IdsUnique(ls[i := l])
  {
    var r := ls[i := l];
    forall a, b | 0 <= a < b < |r| ensures r[a].id != r[b].id {
      assert r[a].id == ls[a].id && r[b].id == ls[b].id;
    }
  }

  /** Appending a conforming document under a new id keeps the collection's invariant. */
  lemma AppendedStaysStored(ls: seq<Listing>, id: Id, doc: Doc)
    requires IdsUnique(ls) && AllStored(ls) && FindListing(ls, id).None?
    requires PropertySchema.Conforms(PropertySchema.Normalize(doc))
    ensures var l := Listing(id, PropertySchema.Normalize(doc));
      IdsUnique(ls + [l]) && AllStored(ls + [l])
  {
    var l := Listing(id, PropertySchema.Normalize(doc));
    PropertySchema.NormalizeIdempotent(doc);
    AllStoredAppend(ls, l);
    IdsUniqueAppend(ls, l);
  }

  lemma IdsUniqueAppend(ls: seq<Listing>, l: Listing)
    requires IdsUnique(ls) && FindListing(ls, l.id).None?
    ensures IdsUnique(ls + [l])
  {
    var r := ls + [l];
    forall a, b | 0 <= a < b < |r| ensures r[a].id != r[b].id {
      if b < |ls| {
        assert r[a] == ls[a] && r[b] == ls[b];
      } else {
        assert r[a] == ls[a] && r[b] == l;
      }
    }
  }

  /** Overwriting a record with a conforming document keeps the collection's invariant. */
  lemma SavedStaysStored(ls: seq<Listing>, i: nat, doc: Doc)
    requires IdsUnique(ls) && AllStored(ls) && i < |ls|
    requires PropertySchema.Conforms(PropertySchema.Normalize(doc))
    ensures var l := Listing(ls[i].id, PropertySchema.Normalize(doc));
      IdsUnique(ls[i := l]) && AllStored(ls[i := l])
  {
    var l := Listing(ls[i].id, PropertySchema.Normalize(doc));
    PropertySchema.NormalizeIdempotent(doc);
    AllStoredReplace(ls, i, l);
    IdsUniqueReplace(ls, i, l);
  }

  lemma IdsUniqueRemove(ls: seq<Listing>, i: nat)
    requires IdsUnique(ls) && i < |ls|
    ensures IdsUnique(ls[..i] + ls[i + 1..])
  {
    var r := ls[..i] + ls[i + 1..];
    forall a, b | 0 <= a < b < |r| ensures r[a].id != r[b].id {
      var a' := if a < i then a else a + 1;
      var b' := if b < i then b else b + 1;
      assert r[a] == ls[a'] && r[b] == ls[b'];
    }
  }

  /** The filter `{ seller: u }`, and equally the test `prop.seller.toString() === u`. */
  predicate OwnedBy(l: Listing, u: Id)
  {
    Get(l.doc, "seller") == Some(Str(u))
  }

  /** `Property.find({ seller: u })`: the listings of `u`, in collection order. */
  function Owned(ls: seq<Listing>, u: Id): (r: seq<Listing>)
    ensures |r| <= |ls|
    ensures forall l :: l in r <==> l in ls && OwnedBy(l, u)
    ensures r == [] <==> forall l :: l in ls ==> !OwnedBy(l, u)
  {
    if ls == [] then []
    else (if OwnedBy(ls[0], u) then [ls[0]] else []) + Owned(ls[1..], u)
  }

  /** What `Property.deleteMany({ seller: u })` leaves: every other listing, in order. */
  function Others(ls: seq<Listing>, u: Id): (r: seq<Listing>)
    ensures |r| <= |ls|
    ensures forall l :: l in r <==> l in ls && !OwnedBy(l, u)
  {
    if ls == [] then []
    else (if OwnedBy(ls[0], u) then [] else [ls[0]]) + Others(ls[1..], u)
  }

  /** Deleting keeps store order and multiplicity: what two runs keep is each run's survivors in turn. */
  lemma {:induction false} OthersAppend(a: seq<Listing>, b: seq<Listing>, u: Id)
    ensures Others(a + b, u) == Others(a, u) + Others(b, u)
  {
    if a == [] {
      assert a + b == b;
    } else {
      OthersAppend(a[1..], b, u);
      OthersStep(a[0], a[1..], b, u);
      assert a == [a[0]] + a[1..];
    }
  }

  /** One inductive step of `OthersAppend`: a listing put in front of both runs. */
  lemma OthersStep(x: Listing, rest: seq<Listing>, b: seq<Listing>, u: Id)
    requires Others(rest + b, u) == Others(rest, u) + Others(b, u)
    ensures Others([x] + rest + b, u) == Others([x] + rest, u) + Others(b, u)
  {
    assert [x] + rest + b == [x] + (rest + b);
    OthersCons(x, rest + b, u);
    OthersCons(x, rest, u);
    ConcatAssoc(if OwnedBy(x, u) then [] else [x], Others(rest, u), Others(b, u));
  }

  lemma OthersCons(x: Listing, rest: seq<Listing>, u: Id)
    ensures Others([x] + rest, u) == (if OwnedBy(x, u) then [] else [x]) + Others(rest, u)
  {
    assert ([x] + rest)[1..] == rest;
  }

  lemma ConcatAssoc<T>(p: seq<T>, q: seq<T>, r: seq<T>)
    ensures p + (q + r) == (p + q) + r
  {
  }

  /** The two selections split the collection: each listing lands in exactly one. */
  lemma {:induction false} OwnedOthersPartition(ls: seq<Listing>, u: Id)
    ensures |Owned(ls, u)| + |Others(ls, u)| == |ls|
  {
    if ls != [] {
      OwnedOthersPartition(ls[1..], u);
    }
  }

  lemma {:induction false} OthersKeepsIdsUnique(ls: seq<Listing>, u: Id)
    requires IdsUnique(ls)
    ensures IdsUnique(Others(ls, u))
    ensures forall l :: l in Others(ls, u) ==> l in ls
  {
    if ls != [] {
      OthersKeepsIdsUnique(ls[1..], u);
      var rest := Others(ls[1..], u);
      forall l | l in rest ensures l.id != ls[0].id {
        var k :| 1 <= k < |ls| && ls[k] == l;
      }
    }
  }

  lemma OthersKeepsStored(ls: seq<Listing>, u: Id)
    requires AllStored(ls)
    ensures AllStored(Others(ls, u))
  {
    var r := Others(ls, u);
    forall i | 0 <= i < |r| ensures IsStored(r[i].doc) {
      assert r[i] in r;
      StoredMember(ls, r[i]);
    }
  }

  /** `findById`: the index of the listing with this id, if there is one. */
  function FindListing(ls: seq<Listing>, id: Id): (r: Option<nat>)
    ensures r.Some? ==> r.value < |ls| && ls[r.value].id == id
    ensures r.None? <==> forall i :: 0 <= i < |ls| ==> ls[i].id != id
  {
    if ls == [] then None
    else if ls[0].id == id then Some(0)
    else
      match FindListing(ls[1..], id)
      case None => None
      case Some(i) => Some(i + 1)
  }

  /** With unique ids the lookup finds each listing at its own index. */
  lemma FindListingAt(ls: seq<Listing>, i: nat)
    requires IdsUnique(ls) && i < |ls|
    ensures FindListing(ls, ls[i].id) == Some(i)
  {
  }

  /** The collection without the listing at index `i`; the others keep their order. */
  function RemoveAt(ls: seq<Listing>, i: nat): (r: seq<Listing>)
    requires i < |ls|
    ensures |r| == |ls| - 1
    ensures forall j :: 0 <= j < i ==> r[j] == ls[j]
    ensures forall j :: i <= j < |r| ==> r[j] == ls[j + 1]
    ensures multiset(r) + multiset{ls[i]} == multiset(ls)
  {
    assert ls == ls[..i] + [ls[i]] + ls[i + 1..];
    ls[..i] + ls[i + 1..]
  }

  /** The users holding an address, as `User.findOne({ email })` sees them. */
  predicate EmailInUse(users: map<Id, User>, email: string)
  {
    exists id :: id in users && users[id].email == email
  }

  /** The listing collection's invariant: unique ids, and every record stored in cast, conforming form. */
  predicate ListingsValid(ls: seq<Listing>)
  {
    IdsUnique(ls) && AllStored(ls)
  }

  class Database {
    var listings: seq<Listing>
    var users: map<Id, User>
    /** Every bulk deletion sent to the image host, in the order sent. */
    var imageDeletes: seq<seq<string>>

    ghost predicate Valid()
      reads this
    {
      && ListingsValid(listings)
      && UniqueEmails(users)
      && (forall id :: id in users ==> WellFormed(users[id]))
    }

    constructor ()
      ensures Valid()
      ensures listings == [] && users == map[] && imageDeletes == []
    {
      listings := [];
      users := map[];
      imageDeletes := [];
    }

    /** `Property.create(doc)`: cast the fields, run the validators, and insert under the new id. */
    method CreateListing(doc: Doc, id: Id) returns (errors: seq<string>)
      requires Valid() && FindListing(listings, id).None?
      modifies this
      ensures Valid()
      ensures errors == PropertySchema.SchemaErrors(PropertySchema.Normalize(doc))
      ensures listings == if errors == [] then old(listings) + [Listing(id, PropertySchema.Normalize(doc))]
                          else old(listings)
      ensures users == old(users) && imageDeletes == old(imageDeletes)
    {
      var d := PropertySchema.Normalize(doc);
      errors := PropertySchema.SchemaErrors(d);
      if errors == [] {
        AppendedStaysStored(listings, id, doc);
        listings := listings + [Listing(id, d)];
      }
    }

    /** `prop.save()` after fields were assigned: cast, validate, and overwrite the record at `i`. */
    method SaveListing(i: nat, doc: Doc) returns (errors: seq<string>)
      requires Valid() && i < |listings|
      modifies this
      ensures Valid()
      ensures errors == PropertySchema.SchemaErrors(PropertySchema.Normalize(doc))
      ensures listings == if errors == [] then old(listings)[i := Listing(old(listings)[i].id, PropertySchema.Normalize(doc))]
                          else old(listings)
      ensures users == old(users) && imageDeletes == old(imageDeletes)
    {
      var d := PropertySchema.Normalize(doc);
      errors := PropertySchema.SchemaErrors(d);
      if errors == [] {
        SavedStaysStored(listings, i, doc);
        listings := listings[i := Listing(listings[i].id, d)];
      }
    }

    /** `prop.deleteOne()` for the record at `i`. */
    method DeleteListingAt(i: nat)
      requires Valid() && i < |listings|
      modifies this
      ensures Valid()
      ensures listings == RemoveAt(old(listings), i)
      ensures users == old(users) && imageDeletes == old(imageDeletes)
    {
      AllStoredRemove(listings, i);
      IdsUniqueRemove(listings, i);
      listings := listings[..i] + listings[i + 1..];
    }

    /** `Property.deleteMany({ seller: u })`. */
    method DeleteListingsOf(u: Id)
      requires Valid()
      modifies this
      ensures Valid()
      ensures listings == Others(old(listings), u)
      ensures users == old(users) && imageDeletes == old(imageDeletes)
    {
      OthersKeepsIdsUnique(listings, u);
      OthersKeepsStored(listings, u);
      listings := Others(listings, u);
    }

    /**
     * `User.create(input)`: the validators first, then the unique index on
     * `email`, which refuses an address already stored.
     */
    method CreateUser(input: UserInput, id: Id) returns (r: Result<User, seq<string>>)
      requires Valid() && id !in users
      modifies this
      ensures Valid()
      ensures r == if MakeUser(input).Ok? && EmailInUse(old(users), MakeUser(input).value.email) then Err(["email"])
                   else MakeUser(input)
      ensures users == if r.Ok? then old(users)[id := r.value] else old(users)
      ensures listings == old(listings) && imageDeletes == old(imageDeletes)
    {
      r := MakeUser(input);
      if r.Err? {
        return;
      }
      var u := r.value;
      if EmailInUse(users, u.email) {
        r := Err(["email"]);
        return;
      }
      MakeUserWellFormed(input);
      InsertUser(id, u);
    }

    /** The insert behind `User.create`, once the unique index has admitted the address. */
    method InsertUser(id: Id, u: User)
      requires Valid() && id !in users && WellFormed(u) && !EmailInUse(users, u.email)
      modifies this
      ensures Valid()
      ensures users == old(users)[id := u]
      ensures listings == old(listings) && imageDeletes == old(imageDeletes)
    {
      UniqueEmailsInsert(users, id, u);
      users := users[id := u];
    }

    /** `User.findByIdAndDelete(u)`; a missing id is no error. */
    method DeleteUser(u: Id)
      requires Valid()
      modifies this
      ensures Valid()
      ensures users == old(users) - {u}
      ensures listings == old(listings) && imageDeletes == old(imageDeletes)
    {
      users := users - {u};
    }

    /** `cloudinary.api.delete_resources(ids)`: the request sent to the image host. */
    method DeleteImages(ids: seq<string>)
      requires Valid()
      modifies this
      ensures Valid()
      ensures imageDeletes == old(imageDeletes) + [ids]
      ensures listings == old(listings) && users == old(users)
    {
      imageDeletes := imageDeletes + [ids];
    }
  }
}
