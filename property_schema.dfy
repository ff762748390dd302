/**
 * The listing schema: which fields are required, which take values from a
 * fixed list, which are trimmed and which get a default. A record is stored
 * as `Normalize(d)` (setters and defaults) and only when `Conforms` holds of it
 * (the validators the document layer runs before a write).
 */
module PropertySchema {
  import opened Wrappers
  import Text
  import opened Documents

  const ListingTypes: seq<string> := ["Sale", "Rent"]
  const PriceUnits: seq<string> := ["Total", "Per Cent", "Per SqFt"]
  const PropertyTypes: seq<string> := ["House", "Apartment", "Land", "Commercial", "Villa", "Resort"]
  const PostedByRoles: seq<string> := ["Owner", "Builder", "Agent"]

  /** Top-level string fields declared with `trim: true`. */
  const TrimmedKeys: set<string> := {"title", "description", "googleMapsLink"}

  /** Top-level fields declared `String`, trimmed or not. */
  const StringKeys: set<string> := {"title", "description", "listingType", "googleMapsLink", "propertyType", "postedBy"}

  /** Top-level fields declared as arrays of strings. */
  const ArrayKeys: set<string> := {"features", "images"}

  /** The declared sub-paths of `location` (those of `price` are `amount` and `perUnit`). */
  const LocationKeys: set<string> := {"district", "city", "locality"}

  /** Top-level fields that receive a value when a record lacks them. */
  const DefaultedKeys: set<string> := {"listingType", "price", "images", "features"}

  /** The declared top-level fields; the schema is strict, so any other field is dropped on write. */
  const SchemaKeys: set<string> := {
    "title", "description", "listingType", "price", "location", "googleMapsLink",
    "sizeSqft", "propertyType", "features", "images", "seller", "postedBy"
  }

  // ---------------------------------------------------------------------------
  // setters and defaults
  // ---------------------------------------------------------------------------

  /** The default a missing top-level field receives, if any. */
  function DefaultFor(k: string): (r: Option<Value>)
    ensures r.Some? <==> k in DefaultedKeys
  {
    if k == "listingType" then Some(Str("Sale"))
    else if k == "price" then Some(Obj(map["perUnit" := Str("Total")]))
    else if k == "images" || k == "features" then Some(Arr([]))
    else None
  }

  /**
   * The cast to a `Number` path: an empty string becomes null, a numeral its
   * value; a value that does not cast is kept, and its path's validator
   * refuses it.
   */
  function CastNumber(x: Value): (r: Value)
    ensures x.Str? && x.s == "" ==> r == Null
    ensures x.Str? && x.s != "" && ToNumber(Some(x.s)).Num? ==> r == ToNumber(Some(x.s))
    ensures !x.Str? || (x.s != "" && ToNumber(Some(x.s)).NaN?) ==> r == x
  {
    if x.Str? && x.s == "" then Null
    else if x.Str? && ToNumber(Some(x.s)).Num? then ToNumber(Some(x.s))
    else x
  }

  /**
   * The cast to a `String` path: a number becomes its decimal text, `NaN`
   * the text "NaN"; strings and null are kept, and an object or array is kept
   * for the validator to refuse.
   */
  function CastString(x: Value): (r: Value)
    ensures x.Num? ==> r.Str? && ToNumber(Some(r.s)) == x
    ensures x.NaN? ==> r == Str("NaN")
    ensures !x.Num? && !x.NaN? ==> r == x
  {
    match x
    case Num(n) => Str(NumText(n))
    case NaN => Str("NaN")
    case _ => x
  }

  /** The cast to a `[String]` path: every item cast to a string, a lone scalar wrapped in an array. */
  function CastArray(x: Value): (r: Value)
    ensures x.Arr? ==>
              r.Arr? && |r.items| == |x.items| && forall i :: 0 <= i < |x.items| ==> r.items[i] == CastString(x.items[i])
    ensures (x.Str? || x.Num? || x.NaN?) ==> r == Arr([CastString(x)])
    ensures x.Null? || x.Obj? ==> r == x
  {
    match x
    case Arr(items) => Arr(seq(|items|, i requires 0 <= i < |items| => CastString(items[i])))
    case Null => x
    case Obj(_) => x
    case _ => Arr([CastString(x)])
  }

  /** The nested `price` object: only `amount` and `perUnit` kept, each cast, `perUnit` defaulting to "Total". */
  function CastPrice(f: map<string, Value>): (r: map<string, Value>)
    ensures r.Keys == f.Keys * {"amount"} + {"perUnit"}
    ensures "amount" in f ==> r["amount"] == CastNumber(f["amount"])
    ensures r["perUnit"] == if "perUnit" in f then CastString(f["perUnit"]) else Str("Total")
  {
    var unit := if "perUnit" in f then CastString(f["perUnit"]) else Str("Total");
    if "amount" in f then map["amount" := CastNumber(f["amount"]), "perUnit" := unit]
    else map["perUnit" := unit]
  }

  /** The nested `location` object: only its declared sub-paths kept, each cast to a string. */
  function CastLocation(f: map<string, Value>): (r: map<string, Value>)
    ensures r.Keys == f.Keys * LocationKeys
    ensures forall k :: k in r ==> r[k] == CastString(f[k])
  {
    map k | k in f.Keys * LocationKeys :: CastString(f[k])
  }

  /** The paths `CastValue` tells apart fall into disjoint classes. */
  lemma CastClassesDisjoint()
    ensures "price" != "location" && "price" != "sizeSqft" && "location" != "sizeSqft"
    ensures forall k :: k in ArrayKeys || k in StringKeys ==> k != "price" && k != "location" && k != "sizeSqft"
    ensures forall k :: k in ArrayKeys ==> k !in StringKeys
    ensures forall k :: k in TrimmedKeys ==> k in StringKeys
    ensures "seller" !in ArrayKeys && "seller" !in StringKeys
    ensures "seller" != "price" && "seller" != "location" && "seller" != "sizeSqft"
  {
    assert "price"[0] != "title"[0] && "location"[0] != "postedBy"[0] && "sizeSqft"[0] != "postedBy"[0];
    assert "features"[0] != "postedBy"[0] && "images"[0] != "seller"[0];
  }

  /**
   * What the setters make of a present top-level field: the cast its declared
   * type calls for, then trimming where the schema asks for it. `seller` is
   * kept as given.
   */
  function CastValue(k: string, x: Value): (r: Value)
    ensures k == "price" && x.Obj? ==> r == Obj(CastPrice(x.fields))
    ensures k == "location" && x.Obj? ==> r == Obj(CastLocation(x.fields))
    ensures k == "sizeSqft" ==> r == CastNumber(x)
    ensures k in ArrayKeys ==> r == CastArray(x)
    ensures k in TrimmedKeys && x.Str? ==> r == Str(Text.Trim(x.s))
    ensures k in StringKeys && k !in TrimmedKeys ==> r == CastString(x)
    ensures k == "seller" ==> r == x
  {
    CastClassesDisjoint();
    if k == "price" then (if x.Obj? then Obj(CastPrice(x.fields)) else x)
    else if k == "location" then (if x.Obj? then Obj(CastLocation(x.fields)) else x)
    else if k == "sizeSqft" then CastNumber(x)
    else if k in ArrayKeys then CastArray(x)
    else if k in StringKeys then
      var y := CastString(x);
      if k in TrimmedKeys && y.Str? then Str(Text.Trim(y.s)) else y
    else x
  }

  /**
   * What the schema makes of one top-level field: nothing for an undeclared
   * field, trimmed strings, the `listingType` default "Sale", the nested
   * default `price.perUnit` "Total" and empty arrays for `images` and
   * `features`.
   */
  function NormalizeField(k: string, v: Option<Value>): (r: Option<Value>)
    ensures r.Some? <==> k in SchemaKeys && (v.Some? || k in DefaultedKeys)
  {
    if k !in SchemaKeys then None
    else match v
      case None => DefaultFor(k)
      case Some(x) => Some(CastValue(k, x))
  }

  /** The record as the document layer holds it after casting: every field through `NormalizeField`. */
  function Normalize(d: Doc): (r: Doc)
    ensures r.Keys == d.Keys * SchemaKeys + DefaultedKeys
    ensures forall k :: Get(r, k) == NormalizeField(k, Get(d, k))
  {
    var r := map k | k in d.Keys * SchemaKeys + DefaultedKeys :: NormalizeField(k, Get(d, k)).value;
    assert forall k :: Get(r, k) == NormalizeField(k, Get(d, k)) by {
      forall k ensures Get(r, k) == NormalizeField(k, Get(d, k)) {
        if k !in d.Keys * SchemaKeys + DefaultedKeys {
          assert k !in SchemaKeys || Get(d, k).None?;
        }
      }
    }
    r
  }

  /** `locationText` is not a path of the schema. */
  lemma LocationTextUndeclared()
    ensures "locationText" !in SchemaKeys
  {
    assert "locationText"[0] != "propertyType"[0];
  }

  /** The required fields other than `price` have no default: a record without them stays without them. */
  lemma UndefaultedPaths()
    ensures "postedBy" !in DefaultedKeys && "location" !in DefaultedKeys
    ensures "title" !in DefaultedKeys && "propertyType" !in DefaultedKeys && "seller" !in DefaultedKeys
  {
    assert "postedBy"[0] != "features"[0];
    assert "location"[0] != "features"[0];
    assert "title"[0] != "price"[0];
    assert "seller"[0] != "images"[0];
  }

  /**
   * Casting neither invents `postedBy` or `location` nor turns a `price`
   * that is not an object into one.
   */
  lemma NormalizeKeepsShape(d: Doc)
    requires "postedBy" !in d && "location" !in d && "price" in d && !d["price"].Obj?
    ensures var n := Normalize(d);
      "postedBy" !in n && "location" !in n && "price" in n && !n["price"].Obj?
  {
    UndefaultedPaths();
    assert "price"[0] != "title"[0];
    var n := Normalize(d);
    assert Get(n, "postedBy") == NormalizeField("postedBy", None);
    assert Get(n, "location") == NormalizeField("location", None);
    assert Get(n, "price") == NormalizeField("price", Some(d["price"]));
  }

  lemma NormalizeDropsUndeclared(d: Doc, k: string)
    requires k !in SchemaKeys
    ensures k !in Normalize(d)
  {
    assert Get(Normalize(d), k) == NormalizeField(k, Get(d, k));
  }

  lemma CastNumberIdempotent(x: Value)
    ensures CastNumber(CastNumber(x)) == CastNumber(x)
  {
  }

  lemma CastStringIdempotent(x: Value)
    ensures CastString(CastString(x)) == CastString(x)
  {
  }

  lemma CastArrayIdempotent(x: Value)
    ensures CastArray(CastArray(x)) == CastArray(x)
  {
    var y := CastArray(x);
    if y.Arr? {
      assert CastArray(y).items == y.items by {
        forall i | 0 <= i < |y.items|
          ensures CastArray(y).items[i] == y.items[i]
        {
          if x.Arr? {
            CastStringIdempotent(x.items[i]);
          } else {
            CastStringIdempotent(x);
          }
        }
      }
    }
  }

  lemma CastPriceIdempotent(f: map<string, Value>)
    ensures CastPrice(CastPrice(f)) == CastPrice(f)
  {
    if "perUnit" in f {
      CastStringIdempotent(f["perUnit"]);
    }
    if "amount" in f {
      CastNumberIdempotent(f["amount"]);
    }
  }

  lemma CastLocationIdempotent(f: map<string, Value>)
    ensures CastLocation(CastLocation(f)) == CastLocation(f)
  {
    var g := CastLocation(f);
    forall k | k in g
      ensures CastLocation(g)[k] == g[k]
    {
      CastStringIdempotent(f[k]);
    }
  }

  /** Casting a cast value again changes nothing. */
  lemma CastValueIdempotent(k: string, x: Value)
    ensures CastValue(k, CastValue(k, x)) == CastValue(k, x)
  {
    if k == "price" {
      if x.Obj? {
        CastPriceIdempotent(x.fields);
      }
    } else if k == "location" {
      if x.Obj? {
        CastLocationIdempotent(x.fields);
      }
    } else if k == "sizeSqft" {
      CastNumberIdempotent(x);
    } else if k in ArrayKeys {
      CastArrayIdempotent(x);
    } else if k in StringKeys {
      var y := CastString(x);
      if k in TrimmedKeys && y.Str? {
        Text.TrimIsTrimmed(y.s);
      }
    }
  }

  lemma DefaultIsCast(k: string)
    requires k in DefaultedKeys
    ensures CastValue(k, DefaultFor(k).value) == DefaultFor(k).value
  {
    assert k !in TrimmedKeys;
    if k == "price" {
      assert CastPrice(map["perUnit" := Str("Total")]) == map["perUnit" := Str("Total")];
    }
  }

  lemma NormalizeFieldIdempotent(k: string, v: Option<Value>)
    ensures NormalizeField(k, NormalizeField(k, v)) == NormalizeField(k, v)
  {
    if k !in SchemaKeys {
      return;
    }
    match v
    case None =>
      if k in DefaultedKeys {
        DefaultIsCast(k);
      }
    case Some(x) =>
      CastValueIdempotent(k, x);
  }

  lemma DefaultedDeclared()
    ensures DefaultedKeys <= SchemaKeys
  {
  }

  /** Casting a cast record again changes nothing. */
  lemma NormalizeIdempotent(d: Doc)
    ensures Normalize(Normalize(d)) == Normalize(d)
  {
    var n := Normalize(d);
    DefaultedDeclared();
    assert Normalize(n).Keys == n.Keys;
    forall k | k in n
      ensures Normalize(n)[k] == n[k]
    {
      NormalizeFieldIdempotent(k, Get(d, k));
      assert Get(Normalize(n), k) == NormalizeField(k, Get(n, k));
    }
  }

  /** Each field of the cast record depends on that field of the input alone. */
  lemma NormalizePointwise(d1: Doc, d2: Doc, k: string)
    requires Get(d1, k) == Get(d2, k)
    ensures Get(Normalize(d1), k) == Get(Normalize(d2), k)
  {
  }

  /** The defaults: "Sale" for a missing `listingType`, "Total" for a missing `price.perUnit`. */
  lemma NormalizeDefaults(d: Doc)
    ensures "listingType" !in d ==> Normalize(d)["listingType"] == Str("Sale")
    ensures "price" !in d ==> Normalize(d)["price"] == Obj(map["perUnit" := Str("Total")])
    ensures "price" in d && d["price"].Obj? ==> Normalize(d)["price"] == Obj(CastPrice(d["price"].fields))
    ensures "price" in d && d["price"].Obj? && "perUnit" !in d["price"].fields ==>
              Normalize(d)["price"].fields["perUnit"] == Str("Total")
    ensures "images" !in d ==> Normalize(d)["images"] == Arr([])
  {
    assert Get(Normalize(d), "listingType") == NormalizeField("listingType", Get(d, "listingType"));
    assert Get(Normalize(d), "price") == NormalizeField("price", Get(d, "price"));
    assert Get(Normalize(d), "images") == NormalizeField("images", Get(d, "images"));
  }

  /** `title`, `description` and `googleMapsLink` are stored trimmed. */
  lemma NormalizeTrims(d: Doc, k: string)
    requires k in TrimmedKeys && k in d && d[k].Str?
    ensures Normalize(d)[k] == Str(Text.Trim(d[k].s))
    ensures Text.IsTrimmed(Normalize(d)[k].s)
  {
    assert Get(Normalize(d), k) == NormalizeField(k, Get(d, k));
    Text.TrimIsTrimmed(d[k].s);
  }

  // ---------------------------------------------------------------------------
  // validators
  // ---------------------------------------------------------------------------

  /** A required string field: present, a string, and not empty. */
  predicate HasText(d: map<string, Value>, k: string)
  {
    k in d && d[k].Str? && d[k].s != ""
  }

  /** A field constrained to `options`; `required` says whether it may be missing. */
  predicate InEnum(d: map<string, Value>, k: string, options: seq<string>, required: bool)
  {
    if k in d then d[k].Str? && d[k].s in options else !required
  }

  /** An optional string field: missing, null or a string (anything else failed its cast). */
  predicate OptionalText(d: map<string, Value>, k: string)
  {
    k !in d || d[k].Str? || d[k].Null?
  }

  /** An array-of-strings field: missing, null, or an array whose items are strings or null. */
  predicate StringArray(d: Doc, k: string)
  {
    k !in d || d[k].Null? || (d[k].Arr? && forall i :: 0 <= i < |d[k].items| ==> d[k].items[i].Str? || d[k].items[i].Null?)
  }

  function Sub(d: Doc, k: string): map<string, Value>
  {
    if k in d && d[k].Obj? then d[k].fields else map[]
  }

  /** The paths the schema validates, in schema order. */
  const ValidatedPaths: seq<string> := [
    "title", "description", "listingType", "price.amount", "price.perUnit",
    "location.district", "location.city", "location.locality", "googleMapsLink",
    "sizeSqft", "propertyType", "features", "images", "seller", "postedBy"
  ]

  /** The `i`th validated path, by position. */
  function ValidatedPath(i: nat): (p: string)
    ensures i < |ValidatedPaths| ==> p == ValidatedPaths[i]
  {
    match i
    case 0 => "title"
    case 1 => "description"
    case 2 => "listingType"
    case 3 => "price.amount"
    case 4 => "price.perUnit"
    case 5 => "location.district"
    case 6 => "location.city"
    case 7 => "location.locality"
    case 8 => "googleMapsLink"
    case 9 => "sizeSqft"
    case 10 => "propertyType"
    case 11 => "features"
    case 12 => "images"
    case 13 => "seller"
    case _ => "postedBy"
  }

  /** The verdict of the validator of `ValidatedPaths[i]`. */
  predicate Validation(d: Doc, i: nat)
  {
    var price := Sub(d, "price");
    var location := Sub(d, "location");
    match i
    case 0 => HasText(d, "title")
    case 1 => OptionalText(d, "description")
    case 2 => InEnum(d, "listingType", ListingTypes, true)
    case 3 => "amount" in price && price["amount"].Num?
    case 4 => InEnum(price, "perUnit", PriceUnits, false)
    case 5 => HasText(location, "district")
    case 6 => HasText(location, "city")
    case 7 => OptionalText(location, "locality")
    case 8 => OptionalText(d, "googleMapsLink")
    case 9 => "sizeSqft" !in d || d["sizeSqft"].Num? || d["sizeSqft"].Null?
    case 10 => InEnum(d, "propertyType", PropertyTypes, true)
    case 11 => StringArray(d, "features")
    case 12 => StringArray(d, "images")
    case 13 => HasText(d, "seller")
    case 14 => InEnum(d, "postedBy", PostedByRoles, true)
    case _ => true
  }

  /** The verdict of each validator, one per entry of `ValidatedPaths`. */
  function Validations(d: Doc): (r: seq<bool>)
    ensures |r| == |ValidatedPaths|
    ensures forall i :: 0 <= i < |r| ==> r[i] == Validation(d, i)
  {
    seq(|ValidatedPaths|, i requires 0 <= i => Validation(d, i))
  }

  /** The paths whose check failed, in order. */
  function Failing(checks: seq<bool>, paths: seq<string>): (r: seq<string>)
    requires |checks| == |paths|
    ensures |r| <= |paths|
    ensures forall p :: p in r ==> p in paths
    ensures forall i :: 0 <= i < |checks| && !checks[i] ==> paths[i] in r
    ensures r == [] <==> forall i :: 0 <= i < |checks| ==> checks[i]
  {
    if checks == [] then []
    else (if checks[0] then [] else [paths[0]]) + Failing(checks[1..], paths[1..])
  }

  /** The paths whose validators fail, in schema order. */
  function SchemaErrors(d: Doc): (r: seq<string>)
    ensures forall p :: p in r ==> p in ValidatedPaths
    ensures r == [] <==> forall i :: 0 <= i < |ValidatedPaths| ==> Validations(d)[i]
  {
    Failing(Validations(d), ValidatedPaths)
  }

  /** A record the validators accept; it holds every required top-level field. */
  predicate Conforms(d: Doc)
    ensures Conforms(d) ==>
      "title" in d && "listingType" in d && "location" in d &&
      "propertyType" in d && "seller" in d && "postedBy" in d &&
      "price" in d && d["price"].Obj? && "amount" in d["price"].fields
  {
    var ok := SchemaErrors(d) == [];
    var v := Validations(d);
    assert ok ==> v[0] && v[2] && v[3] && v[5] && v[10] && v[13] && v[14];
    ok
  }

  /**
   * The required fields: a record missing `title`, `location`, `propertyType`,
   * `seller` or `postedBy`, or missing `price` (whose default holds no
   * `amount`), is refused with that path among the errors.
   */
  lemma RequiredFields(d: Doc)
    ensures "title" !in d ==> "title" in SchemaErrors(Normalize(d))
    ensures "price" !in d ==> "price.amount" in SchemaErrors(Normalize(d))
    ensures "location" !in d ==> "location.district" in SchemaErrors(Normalize(d))
    ensures "location" !in d ==> "location.city" in SchemaErrors(Normalize(d))
    ensures "propertyType" !in d ==> "propertyType" in SchemaErrors(Normalize(d))
    ensures "seller" !in d ==> "seller" in SchemaErrors(Normalize(d))
    ensures "postedBy" !in d ==> "postedBy" in SchemaErrors(Normalize(d))
  {
    var n := Normalize(d);
    ErrorsSplit(n);
    UndefaultedPaths();
    if "title" !in d {
      assert Get(n, "title") == DefaultFor("title");
    }
    if "price" !in d {
      assert Get(n, "price") == DefaultFor("price");
      assert Sub(n, "price") == map["perUnit" := Str("Total")];
    }
    if "location" !in d {
      assert Get(n, "location") == DefaultFor("location");
    }
    if "propertyType" !in d {
      assert Get(n, "propertyType") == DefaultFor("propertyType");
    }
    if "seller" !in d {
      assert Get(n, "seller") == DefaultFor("seller");
    }
    if "postedBy" !in d {
      assert Get(n, "postedBy") == DefaultFor("postedBy");
    }
  }

  /** Each failing validator puts its path among the errors. */
  lemma ErrorsSplit(d: Doc)
    ensures !HasText(d, "title") ==> "title" in SchemaErrors(d)
    ensures !("amount" in Sub(d, "price") && Sub(d, "price")["amount"].Num?) ==> "price.amount" in SchemaErrors(d)
    ensures !HasText(Sub(d, "location"), "district") ==> "location.district" in SchemaErrors(d)
    ensures !HasText(Sub(d, "location"), "city") ==> "location.city" in SchemaErrors(d)
    ensures !InEnum(d, "propertyType", PropertyTypes, true) ==> "propertyType" in SchemaErrors(d)
    ensures !HasText(d, "seller") ==> "seller" in SchemaErrors(d)
    ensures !InEnum(d, "postedBy", PostedByRoles, true) ==> "postedBy" in SchemaErrors(d)
  {
    TopLevelErrors(d);
    NestedErrors(d);
  }

  /** The required top-level paths report themselves. */
  lemma TopLevelErrors(d: Doc)
    ensures !HasText(d, "title") ==> "title" in SchemaErrors(d)
    ensures !InEnum(d, "propertyType", PropertyTypes, true) ==> "propertyType" in SchemaErrors(d)
    ensures !HasText(d, "seller") ==> "seller" in SchemaErrors(d)
    ensures !InEnum(d, "postedBy", PostedByRoles, true) ==> "postedBy" in SchemaErrors(d)
  {
    FailsAt(d, 0, "title", HasText(d, "title"));
    FailsAt(d, 10, "propertyType", InEnum(d, "propertyType", PropertyTypes, true));
    FailsAt(d, 13, "seller", HasText(d, "seller"));
    FailsAt(d, 14, "postedBy", InEnum(d, "postedBy", PostedByRoles, true));
  }

  /** The required nested paths report themselves. */
  lemma NestedErrors(d: Doc)
    ensures !("amount" in Sub(d, "price") && Sub(d, "price")["amount"].Num?) ==> "price.amount" in SchemaErrors(d)
    ensures !HasText(Sub(d, "location"), "district") ==> "location.district" in SchemaErrors(d)
    ensures !HasText(Sub(d, "location"), "city") ==> "location.city" in SchemaErrors(d)
  {
    var price, location := Sub(d, "price"), Sub(d, "location");
    FailsAt(d, 3, "price.amount", "amount" in price && price["amount"].Num?);
    FailsAt(d, 5, "location.district", HasText(location, "district"));
    FailsAt(d, 6, "location.city", HasText(location, "city"));
  }

  /** The validator at position `i`, whose verdict is `ok`, reports path `p` when it fails. */
  lemma FailsAt(d: Doc, i: nat, p: string, ok: bool)
    requires i < |ValidatedPaths| && ValidatedPath(i) == p && Validation(d, i) == ok
    ensures !ok ==> p in SchemaErrors(d)
  {
    assert Validations(d)[i] == ok;
  }

  /** A conforming record holds only values from the enumerations. */
  lemma ConformsEnums(d: Doc)
    requires Conforms(d)
    ensures d["listingType"].Str? && d["listingType"].s in ListingTypes
    ensures d["propertyType"].Str? && d["propertyType"].s in PropertyTypes
    ensures d["postedBy"].Str? && d["postedBy"].s in PostedByRoles
    ensures d["price"].Obj? && d["price"].fields["amount"].Num?
    ensures "perUnit" in d["price"].fields ==>
              d["price"].fields["perUnit"].Str? && d["price"].fields["perUnit"].s in PriceUnits
  {
    var v := Validations(d);
    assert v[2] && v[3] && v[4] && v[10] && v[14];
  }

  /**
   * The schema bounds neither the number of images nor the sign of the price:
   * a conforming record still conforms with any list of image URLs and any
   * amount.
   */
  lemma NoImageCapNoPriceSign(d: Doc, urls: seq<string>, amount: int)
    requires Conforms(d)
    ensures Conforms(d["images" := Arr(Strs(urls))]["price" := Obj(d["price"].fields["amount" := Num(amount)])])
  {
    ConformsEnums(d);
    var d' := d["images" := Arr(Strs(urls))]["price" := Obj(d["price"].fields["amount" := Num(amount)])];
    assert Sub(d', "location") == Sub(d, "location");
    assert Sub(d', "price") == Sub(d, "price")["amount" := Num(amount)];
    var v, v' := Validations(d), Validations(d');
    assert forall i :: 0 <= i < |ValidatedPaths| ==> v[i];
    assert forall i :: 0 <= i < |ValidatedPaths| && i != 12 ==> v'[i] == v[i];
    assert v'[12];
  }
}
