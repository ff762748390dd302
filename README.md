# Real-estate classifieds: a verified model of the server routes and two client forms

This project models the core of a real-estate classifieds application written in
JavaScript (an Express server over a MongoDB/Mongoose document store, and a React
client). It covers:

- the two document schemas (`Property`, `User`): casting each path to its
  declared type, field setters (`trim`, `lowercase`), defaults, strict
  dropping of undeclared fields (nested objects included), and the
  validators run before a write;
- the listing routes: the public list with its filter, sort, skip, limit and
  page count; reading one listing; and the authenticated create, update and
  delete with their 404/403 checks;
- the authentication routes and service: register (request validators, the
  409 for a taken address, password hashing, token signing), login (one 401
  for an unknown address and for a wrong password), `GET /me`, and account
  deletion. Deletion turns every image URL of the caller's listings into an
  image-host public id, sends one bulk delete, then removes the listings and
  the user. A `null` image stops it before anything is deleted;
- the bearer-token gate (`requireAuth`) and the central error handler;
- on the client, the walk that flattens the add-listing form into multipart
  form data, the error message the form shows, and the search form's
  query-string construction, with a proved decode round trip.

The document store is the class `Store.Database`. It holds the listings in
insertion order, the users by id, and the bulk image deletes sent to the image
host. Its invariant `Valid()` says:

- listing ids are unique;
- every listing is stored in normal form and passes the schema;
- user email addresses are unique;
- every user is well formed.

Each route that writes is a method on it. It states the whole new state, and
shows that `Valid()` is kept.

Collaborators the code calls but does not define are parameters of the
operations that call them:

- the password library (`hash`, `compare`);
- the token library (`sign`, `verify`);
- the image host's upload;
- MongoDB's `$text` search;
- a fresh id;
- which step of an operation throws.

The model follows the code where it departs from the application's stated
design. Each departure below is proved:

- The create route can never pass the schema, so every `POST /properties`
  answers 400 (`PropertyRoutes.CreateAlwaysRefused`). The route writes a
  numeric `price` where the schema declares an object, and it never supplies
  `postedBy` or `location`.
- The `location`, `minPrice` and `maxPrice` filters match no stored listing
  (`PropertyRoutes.LocationAndPriceFiltersMatchNothing`). They name
  `locationText`, which the strict schema drops, and a numeric `price`, where
  the schema keeps an object. This assumes the filter reaches the database
  as built, which is Mongoose's default from version 7 on (`strictQuery`
  off); see "## Left out".
- The gate reads the `Authorization` header only. The session cookie set at
  login is never read (`AuthGate.CookieIgnored`).
- An owner's update may rewrite `seller`. Afterwards the former owner is
  refused (`PropertyRoutes.OwnerCanReassignSeller`).
- Deleting one listing leaves its images at the image host. Only account
  deletion removes images (`PropertyRoutes.DeleteProperty`).
- An owner can store a `null` image item through the update route, since
  the schema accepts `null` items. Account deletion then throws while it
  derives the public ids. The error goes to the error handler, and neither
  the images, the listings nor the user are deleted
  (`AuthRoutes.NullImageBlocksDeletion`).
- A negative `limit` fails every page after the first with 500, because the
  skip is negative. On the first page it returns at most `-limit` listings
  and a page count of zero or less (`PropertyRoutes.NegativeLimit`).
- A rejected save in the update route is not caught. The model answers
  `Unhandled`. The update does go through the schema's casts, so a
  numeral string for `sizeSqft` or `price.amount` is saved as a number
  (`PropertyRoutes.UpdateCastsSize`, `PropertyRoutes.UpdateCastsPrice`).
  A `price` object sent without `perUnit` is saved with `perUnit` "Total".
  This assumes a Mongoose whose nested set re-applies the defaults of the
  replaced object's sub-paths (see "## Left out").

## Model

| member | source | states |
|---|---|---|
| Text.Split | server/routes/auth.js:89 | `url.split("/")`: at least one part, no part holds the separator, and joining the parts with it gives back the string |
| Text.SplitJoin | server/routes/auth.js:89-90 | splitting the join of separator-free parts gives back the parts |
| Text.IndexOf | server/routes/auth.js:90 | `indexOf`: the first position holding the element, or -1 exactly when it is absent |
| Text.Slice | server/routes/auth.js:90 | `slice(start)` for every start: from start, counted from the end when negative, whole when below `-length`, empty past the end |
| Text.LastIndexOf | server/routes/auth.js:91 | `lastIndexOf`: the last position holding the character, or -1 exactly when it is absent |
| Text.LastIndexOfBeforeTail | server/routes/auth.js:91 | the last dot of `name + "." + ext` is the one before an extension without dots |
| Text.Substring | server/routes/auth.js:91 | `substring(0, end)`: the slice for in-range bounds, empty when both bounds are not positive |
| Text.TrimStart | server/models/User.js:5 | strips exactly the leading whitespace |
| Text.TrimEnd | server/models/User.js:5 | strips exactly the trailing whitespace |
| Text.TrimIsTrimmed | server/models/User.js:5 | a trimmed string has no outer whitespace, and trimming is idempotent |
| Text.Lower | server/models/User.js:6 | lowercasing maps each character and keeps the length |
| Text.LowerIsLower | server/models/User.js:6 | a lowercased string is lowercase, and lowercasing is idempotent |
| Text.IsInfixAt | server/routes/properties.js:16 | a literal pattern occurs in a text exactly when it occurs at some index |
| Documents.Get | server/routes/properties.js:83 | a field read is present exactly when the document holds the key, with the stored value |
| Documents.GetExtensional | server/routes/properties.js:83 | two documents that agree on every field read are equal |
| Documents.StringItems | server/routes/auth.js:88-89 | the items are read as strings exactly when every item is a string; a `null` item makes `url.split` throw |
| Documents.ImageUrls | server/routes/auth.js:88-89 | a missing `images` reads as the empty default; a `null` array, or an array holding a `null` or other non-string item, throws; otherwise the URLs, one per item, in order |
| Documents.ImageUrlsOfStrings | server/routes/auth.js:88 | a listing whose `images` holds the strings `urls` yields exactly `urls` to the id derivation |
| Documents.ToNumber | server/routes/properties.js:60 | `Number(x)` is a number or NaN; `undefined` is NaN and a blank string is 0 |
| Documents.DecimalValue | server/routes/properties.js:60 | a natural number's decimal numeral reads back as that number |
| Documents.ToNumberDecimal | server/routes/properties.js:60 | `Number` reads back every integer written in decimal, negative ones included |
| Documents.NumText | server/models/Property.js:5-24 | the text a number is cast to reads back as that number through `Number` |
| PropertySchema.DefaultFor | server/models/Property.js:7-22 | a default exists exactly for `listingType`, `price`, `images` and `features` |
| PropertySchema.CastNumber | server/models/Property.js:9-19 | the cast to a `Number` path: an empty string becomes null, a numeral its value; anything else is kept for the validator to refuse |
| PropertySchema.CastString | server/models/Property.js:5-24 | the cast to a `String` path: a number becomes text that reads back as that number, NaN becomes "NaN", everything else is kept |
| PropertySchema.CastArray | server/models/Property.js:21-22 | the cast to `[String]`: each item cast to a string, in order; a lone scalar is wrapped in an array |
| PropertySchema.CastPrice | server/models/Property.js:8-11 | a `price` object keeps only `amount` (cast to a number) and `perUnit` (cast to a string, default "Total") |
| PropertySchema.CastLocation | server/models/Property.js:12-16 | a `location` object keeps only `district`, `city` and `locality`, each cast to a string |
| PropertySchema.CastValue | server/models/Property.js:5-24 | each top-level field gets the cast its declared type calls for; trimmed fields are trimmed after the cast; `seller` is kept |
| PropertySchema.NormalizeField | server/models/Property.js:5-24 | a field survives a write exactly when it is declared and either present or defaulted |
| PropertySchema.Normalize | server/models/Property.js:5-24 | the stored keys are the declared keys present plus the defaulted ones; each field is cast on its own |
| PropertySchema.LocationTextUndeclared | server/models/Property.js:5-24 | `locationText` is not a declared path |
| PropertySchema.UndefaultedPaths | server/models/Property.js:5-24 | `postedBy`, `location`, `title`, `propertyType` and `seller` get no default |
| PropertySchema.NormalizeKeepsShape | server/models/Property.js:8-24 | a document without `postedBy` and `location` and with a non-object `price` keeps that shape when written |
| PropertySchema.NormalizeDropsUndeclared | server/models/Property.js:5-24 | strict mode: an undeclared field never reaches the store |
| PropertySchema.CastNumberIdempotent | server/models/Property.js:9-19 | casting to a number twice is casting once |
| PropertySchema.CastStringIdempotent | server/models/Property.js:5-24 | casting to a string twice is casting once |
| PropertySchema.CastArrayIdempotent | server/models/Property.js:21-22 | casting to an array of strings twice is casting once |
| PropertySchema.CastPriceIdempotent | server/models/Property.js:8-11 | casting a price object twice is casting once |
| PropertySchema.CastLocationIdempotent | server/models/Property.js:12-16 | casting a location object twice is casting once |
| PropertySchema.CastValueIdempotent | server/models/Property.js:5-24 | casting a value twice is casting it once |
| PropertySchema.DefaultIsCast | server/models/Property.js:7-22 | every default is already in cast form |
| PropertySchema.NormalizeFieldIdempotent | server/models/Property.js:5-24 | normalising one field twice is normalising it once |
| PropertySchema.DefaultedDeclared | server/models/Property.js:5-24 | every defaulted field is a declared one |
| PropertySchema.NormalizeIdempotent | server/models/Property.js:5-24 | writing a stored record again changes nothing |
| PropertySchema.NormalizePointwise | server/models/Property.js:5-24 | a stored field depends only on the same field of the input |
| PropertySchema.NormalizeDefaults | server/models/Property.js:7-22 | the defaults: `listingType` is "Sale", a missing `price` is `{ perUnit: "Total" }`, a given price object is cast and gets `perUnit` "Total" when it has none, `images` is empty |
| PropertySchema.NormalizeTrims | server/models/Property.js:5-18 | `title`, `description` and `googleMapsLink` are stored trimmed |
| PropertySchema.Failing | server/models/Property.js:5-24 | errors are collected, not fail-fast: every failing check reports its path, only checked paths are reported, and none exactly when every check passes |
| PropertySchema.SchemaErrors | server/models/Property.js:5-24 | only schema paths are reported, and none exactly when all fifteen validators pass |
| PropertySchema.Conforms | server/models/Property.js:5-24 | a record the validators accept holds title, listingType, location, propertyType, seller, postedBy, and a price object with an amount |
| PropertySchema.RequiredFields | server/models/Property.js:5-24 | each missing required path is reported: title, price.amount, location.district, location.city, propertyType, seller, postedBy |
| PropertySchema.ErrorsSplit | server/models/Property.js:5-24 | every failing validator reports its own path; errors are collected, not fail-fast |
| PropertySchema.ConformsEnums | server/models/Property.js:7-24 | a conforming record holds enum values for listingType, perUnit, propertyType and postedBy, and a numeric price amount |
| PropertySchema.NoImageCapNoPriceSign | server/models/Property.js:9-22 | the schema caps neither the image count nor the sign of the price |
| UserSchema.UserErrors | server/models/User.js:5-8 | no errors exactly when name, email and password are non-empty and the role is one of the three |
| UserSchema.MakeUser | server/models/User.js:3-12 | accepted exactly when the trimmed name, the lowercased email and the password are non-empty and the role (default "Owner") is one of the three; the user built holds those set values and the trimmed phone; a refusal lists the failing paths |
| UserSchema.MakeUserWellFormed | server/models/User.js:5-9 | every user the model creates is trimmed, lowercased, has a password and a valid role |
| UserSchema.MakeUserRebuilds | server/models/User.js:3-12 | a well-formed user's own fields, fed back through the schema, rebuild that user |
| UserSchema.WellFormedIsSet | server/models/User.js:5-9 | a stored user is a fixed point of the setters: lowercasing its email and trimming its name and phone change nothing |
| UserSchema.MakeUserKeepsCredentials | server/models/User.js:6-7 | a created user keeps the given password and the lowercased address |
| UserSchema.RoleDefault | server/models/User.js:8 | a missing role becomes "Owner"; a given one must be one of the three |
| UserSchema.RequiredUserFields | server/models/User.js:5-7 | a missing name, email or password is reported |
| UserSchema.UniqueEmailsInsert | server/models/User.js:6 | adding a user with a new address keeps addresses unique |
| Store.Owned | server/routes/auth.js:83 | `find({ seller })`: exactly the listings of that seller, empty exactly when there is none |
| Store.Others | server/routes/auth.js:101 | `deleteMany({ seller })` leaves exactly the listings of other sellers |
| Store.OthersAppend | server/routes/auth.js:101 | the deletion keeps collection order and duplicates: what survives of two runs is each run's survivors in turn |
| Store.OwnedOthersPartition | server/routes/auth.js:83-101 | the listings found and the listings kept partition the collection |
| Store.OthersKeepsIdsUnique | server/routes/auth.js:101 | the listings kept still have unique ids and were all there before |
| Store.OthersKeepsStored | server/routes/auth.js:101 | the listings kept are all still in stored form |
| Store.FindListing | server/routes/properties.js:80 | `findById`: the position of the listing with that id, or none exactly when no listing has it |
| Store.FindListingAt | server/routes/properties.js:80 | with unique ids, looking up a listing's id finds that listing |
| Store.RemoveAt | server/routes/properties.js:93 | the listings before `i` and after it remain, in order, one fewer in all; the multiset loses exactly the removed listing |
| Store.AppendedStaysStored | server/routes/properties.js:57 | appending a conforming record under a new id keeps the invariant |
| Store.SavedStaysStored | server/routes/properties.js:84 | overwriting a record with a conforming one keeps the invariant |
| Store.Database.CreateListing | server/routes/properties.js:57-67 | `Property.create`: the record is normalised and validated; it is appended exactly when there are no errors; the invariant is kept |
| Store.Database.SaveListing | server/routes/properties.js:84 | `save`: the normalised record replaces position `i` exactly when it validates; the invariant is kept |
| Store.Database.DeleteListingAt | server/routes/properties.js:93 | `deleteOne`: the listing at `i` is removed and nothing else changes |
| Store.Database.DeleteListingsOf | server/routes/auth.js:101 | `deleteMany({ seller })`: exactly the other sellers' listings remain |
| Store.Database.CreateUser | server/services/authService.js:15 | `User.create`: a valid user with a new address is inserted; a taken address is refused by the unique index; nothing else changes |
| Store.Database.InsertUser | server/models/User.js:6 | inserting a well-formed user with a new address keeps the unique index and the invariant |
| Store.Database.DeleteUser | server/routes/auth.js:104 | `findByIdAndDelete`: the user is gone, everyone else is unchanged |
| Store.Database.DeleteImages | server/routes/auth.js:96 | one bulk delete of exactly these public ids is sent |
| ErrorHandling.HandleError | server/middleware/errorHandler.js:3-16 | status is the error's own code, else 500 over a default 200, else the preset status; the message or a default; no stack in production |
| ErrorHandling.HandleErrorSafe | server/middleware/errorHandler.js:9-15 | an error reply is never 200 unless the error says so, always has a message, and never shows a stack in production |
| ErrorHandling.PresetStatusSurvives | server/middleware/errorHandler.js:9 | a status set before throwing a code-less error is the one answered |
| AuthGate.TokenOf | server/middleware/auth.js:7 | the token is the second space-separated part of the header, so it holds no space |
| AuthGate.TokenOfBearer | server/middleware/auth.js:5-7 | `"Bearer " + token` yields the token |
| AuthGate.TokenOfIgnoresTail | server/middleware/auth.js:7 | anything after a second space is ignored |
| AuthGate.RequireAuth | server/middleware/auth.js:3-14 | carries out `Gate`: a refusal answers 401 with the gate's message and changes nothing else; a pass sets `req.user` to the claims and runs `next` once |
| AuthGate.Gate | server/middleware/auth.js:3-14 | "No token" exactly without the `Bearer ` prefix, "Invalid token" exactly when verification fails, otherwise the verified claims |
| AuthGate.SignedTokenPasses | server/middleware/auth.js:7-10 | a token signed by a sound signer passes with its own claims |
| AuthGate.CookieIgnored | server/middleware/auth.js:4-5 | a request without the header is refused with "No token"; the gate has no cookie input, so this holds by construction |
| AuthService.FindByEmail | server/services/authService.js:7 | `findOne({ email })`: the user holding the address, or none exactly when it is not in use |
| AuthService.RegisterUser | server/services/authService.js:5-21 | a taken address raises 409; a body the user schema refuses raises its validation error; otherwise the hashed password is stored and the brief view and signed token are returned; failure changes nothing |
| AuthService.MakeUserEmail | server/services/authService.js:7 | a user is stored under the same lowercased address that a lookup by the body's email uses |
| AuthService.Login | server/services/authService.js:23-43 | a session exactly when the stored address has a user whose digest matches the password; the session is that user's full view and the token signed for its id and role; otherwise 401 "Invalid credentials", or the hash library's error for a missing password on a known address |
| AuthService.LoginDoesNotRevealAccounts | server/services/authService.js:25-37 | an unknown address and a wrong password give the same error |
| AuthService.RegisteredUserCanLogIn | server/services/authService.js:14-41 | whoever registers can log in with the same address, in any letter case, and password |
| AuthService.StoresDigest | server/services/authService.js:14-15 | the stored password is the digest of the supplied one |
| AuthRoutes.PublicIdOfHostedUrl | server/routes/auth.js:89-91 | the public id of a hosted URL is the path from `realestate` with the extension stripped |
| AuthRoutes.SliceFromFolder | server/routes/auth.js:90 | slicing from the first `realestate` segment keeps that segment and what follows |
| AuthRoutes.StripExtension | server/routes/auth.js:91 | cutting at the last dot removes exactly the extension |
| AuthRoutes.PublicIdOfUpload | server/routes/auth.js:89-91 | a URL of an upload to `realestate/properties` yields `realestate/properties/<name>` |
| AuthRoutes.PublicIdWithoutFolder | server/routes/auth.js:90 | a URL without the folder: `indexOf` is -1, so `slice(-1)` keeps only the last segment |
| AuthRoutes.PublicIdsOf | server/routes/auth.js:88-92 | one public id per image URL, in order |
| AuthRoutes.PublicIds | server/routes/auth.js:87-93 | `flatMap` throws exactly when some listing's images do not read as strings; otherwise one id per image of the listings |
| AuthRoutes.PublicIdsAppend | server/routes/auth.js:87-93 | the ids of two runs of listings throw exactly when either run's do, and are otherwise the ids of each, concatenated |
| AuthRoutes.RegisterErrors | server/routes/auth.js:14-18 | no errors exactly when all five validators pass; each failing validator reports its field and message |
| AuthRoutes.ValidatedBody | server/routes/auth.js:14-17 | a body that passes has a name, an email, a password of at least six characters and a valid role |
| AuthRoutes.EmailAccepted | server/routes/auth.js:15 | every address `local@host.tld` passes `isEmail` when the parts are non-empty and blank-free, none holds `@` and the top-level domain holds no dot |
| AuthRoutes.NoLocalPartRefused | server/routes/auth.js:15 | every address without an `@`, or starting with one, fails `isEmail` |
| AuthRoutes.DotlessDomainRefused | server/routes/auth.js:15 | every address whose domain after its only `@` holds no dot fails `isEmail` |
| AuthRoutes.MobileAccepted | server/routes/auth.js:18 | any ten digits starting 6 to 9 pass the mobile check, bare or after `+91`, `91` or `0` |
| AuthRoutes.MobileRefused | server/routes/auth.js:18 | under ten or over thirteen characters always fail; ten characters pass exactly when they are ten digits starting 6 to 9 |
| AuthRoutes.Register | server/routes/auth.js:11-39 | 400 with the validator errors; the 409 forwarded to the error handler; a body the user schema refuses forwards that validation error; otherwise 201 with the new user stored under the new id; nothing else changes |
| AuthRoutes.LoginRoute | server/routes/auth.js:41-55 | signed in exactly when the service logs in, with 200 and the service's user and token; otherwise the service's error passed on |
| AuthRoutes.LoginFailureIs401 | server/routes/auth.js:41-55 | every failed login with a password reaches the client as 401 "Invalid credentials" |
| AuthRoutes.ShowMe | server/routes/auth.js:65-76 | the caller's stored id, name, email, role and phone number, never the password; else "User not found" with status 404 passed on |
| AuthRoutes.ShowMeMissingIs404 | server/routes/auth.js:67-71 | a missing user answers 404 "User not found" |
| AuthRoutes.DeleteOwnedImages | server/routes/auth.js:83-98 | a `null` image among the caller's listings throws the `TypeError`; otherwise the bulk delete is sent exactly when those listings hold images, with their ids; a throw changes nothing |
| AuthRoutes.DeleteMe | server/routes/auth.js:78-115 | find the listings, derive the ids (a `null` image forwards the `TypeError`), delete the images, then the listings, then the user; a throwing step forwards its error and the later steps do not run |
| AuthRoutes.DeletedAccountLeavesNothing | server/routes/auth.js:101-104 | after deletion the caller owns no listing and has no account; everything else is kept |
| AuthRoutes.CallsStorageIffImages | server/routes/auth.js:86-97 | the image host is called exactly when the caller's listings hold at least one image item and none of them fails to read as a string |
| AuthRoutes.ImagesUnreadableIff | server/routes/auth.js:86-93 | the id derivation throws exactly when some listing of the caller holds images that do not read as strings |
| AuthRoutes.NullImageBlocksDeletion | server/routes/auth.js:87-89 | one `null` item in the images of a listing the caller sells makes the id derivation throw |
| PropertyRoutes.PriceFilter | server/routes/properties.js:17-19 | `price` is present exactly when either bound is truthy, and each bound is `Number` of its own parameter |
| PropertyRoutes.FilterFor | server/routes/properties.js:13-19 | the filter holds exactly the keys the truthy parameters ask for, with their values |
| PropertyRoutes.BuildFilter | server/routes/properties.js:13-19 | the imperative filter construction builds that filter |
| PropertyRoutes.Matches | server/routes/properties.js:13-19 | the empty filter matches every record; a location filter never matches a record without `locationText`, a price filter never one whose price is an object; a type filter matches only that type |
| PropertyRoutes.Find | server/routes/properties.js:23-24 | exactly the stored listings that match the filter |
| PropertyRoutes.FindAppend | server/routes/properties.js:23-24 | matching keeps store order and multiplicity: the matches of two runs are each run's matches in turn |
| PropertyRoutes.FindOne | server/routes/properties.js:23-24 | one listing is found exactly when it matches |
| PropertyRoutes.Newest | server/routes/properties.js:23 | `sort({ createdAt: -1 })`: the same listings, most recent first |
| PropertyRoutes.Window | server/routes/properties.js:23 | `skip` then `limit`: the contiguous run starting at `skip`, of exactly `limit` items when more remain, else all that remain; limit 0 means no limit |
| PropertyRoutes.CursorLimit | server/routes/properties.js:23 | `.limit(n)` lets through `n` documents, `-n` for a negative `n`, and 0 means no limit |
| PropertyRoutes.Pages | server/routes/properties.js:27 | `Math.ceil(total / limit)` for either sign of `limit`: the least page count covering the total for a positive limit, zero or less for a negative one; undefined for limit 0 |
| PropertyRoutes.ListReply | server/routes/properties.js:10-31 | for any integer page and limit: 500 exactly when the skip is negative; otherwise the page of newest matches, the count of every match, the page number and the page count |
| PropertyRoutes.ListProperties | server/routes/properties.js:10-31 | the reply is the listing reply for the stored listings, negative limits included |
| PropertyRoutes.NegativeLimit | server/routes/properties.js:21-27 | a negative limit gives 500 from page 2 on; on page 1 or below at most `-limit` listings and a page count of zero or less |
| PropertyRoutes.ListReplyBounds | server/routes/properties.js:22-27 | a page holds at most as many listings as the limit lets through, each stored and matching; `total` counts every match |
| PropertyRoutes.WindowOfNewest | server/routes/properties.js:23 | a page holds only matches |
| PropertyRoutes.DefaultFirstPage | server/routes/properties.js:12-27 | without page and limit: the twelve newest matches, page 1, and the page count for twelve per page |
| PropertyRoutes.EmptyFilterMatchesAll | server/routes/properties.js:13-23 | a query with no truthy parameter filters nothing out |
| PropertyRoutes.LocationAndPriceFiltersMatchNothing | server/routes/properties.js:16-19 | with a location or price parameter, no stored listing matches |
| PropertyRoutes.StoredNeverMatches | server/routes/properties.js:16-19 | a stored record never matches a location or price filter |
| PropertyRoutes.StoredHasNoLocationText | server/models/Property.js:5-24 | a stored record has no `locationText` |
| PropertyRoutes.StoredPriceIsObject | server/models/Property.js:8-11 | a stored record's `price` is an object |
| PropertyRoutes.SellerContact | server/routes/properties.js:35 | `populate("seller")` yields a contact exactly when the `seller` field names a user, and then that user's id, name and email |
| PropertyRoutes.ShowProperty | server/routes/properties.js:34-38 | 404 exactly when no listing has the id, otherwise that stored listing with its seller's contact as `populate` finds it |
| PropertyRoutes.Uploaded | server/routes/properties.js:49-55 | one URL per file, in file order; none exactly when some upload is rejected |
| PropertyRoutes.UploadAll | server/routes/properties.js:49-55 | the upload loop returns exactly those URLs |
| PropertyRoutes.Field | server/routes/properties.js:47 | a body field is present exactly when sent |
| PropertyRoutes.WithText | server/routes/properties.js:57-63 | each of the four text fields is the sent string when sent and untouched otherwise; no other field is written |
| PropertyRoutes.WithSize | server/routes/properties.js:62 | `sizeSqft` is written, through `Number`, only when truthy |
| PropertyRoutes.WithCoordinates | server/routes/properties.js:66 | coordinates are written only when `lng` and `lat` are both truthy |
| PropertyRoutes.RouteDocument | server/routes/properties.js:57-67 | the object sent to `create`: numeric price, the uploaded URLs, the caller as seller; no `postedBy` and no `location` |
| PropertyRoutes.BaseKeys | server/routes/properties.js:60-65 | the route's own keys are only price, images and seller |
| PropertyRoutes.RouteStages | server/routes/properties.js:57-67 | the optional fields never overwrite price, images, seller, postedBy or location |
| PropertyRoutes.OptionalStages | server/routes/properties.js:62-66 | size and coordinates appear only when the body supplies them |
| PropertyRoutes.CreateAsWrittenFails | server/routes/properties.js:57-67 | the created record fails postedBy, location.district, location.city and price.amount |
| PropertyRoutes.MissingFieldsErrors | server/models/Property.js:8-24 | a record without postedBy and location, whose price is not an object, fails those four paths |
| PropertyRoutes.CreateAlwaysRefused | server/routes/properties.js:57-74 | no create request can pass the schema |
| PropertyRoutes.CreateProperty | server/routes/properties.js:41-76 | a rejected upload answers 400; otherwise 201 with the appended listing when it conforms, else 400; users and images untouched |
| PropertyRoutes.Assign | server/routes/properties.js:83 | `Object.assign`: body fields win, every other field is kept |
| PropertyRoutes.UpdateProperty | server/routes/properties.js:79-86 | 404, then 403, then the merged record, cast by the schema, saved exactly when it validates; a refused save is unhandled and changes nothing |
| PropertyRoutes.UpdateKeepsAbsentFields | server/routes/properties.js:83-84 | a field the body leaves out keeps its stored value |
| PropertyRoutes.UpdateCopiesBodyFields | server/routes/properties.js:83-84 | a declared field in the body is stored as the schema casts it |
| PropertyRoutes.OwnerCanReassignSeller | server/routes/properties.js:82-84 | an owner's update naming another seller is stored, still conforms, and makes the other user the owner |
| PropertyRoutes.UpdateCastsSize | server/routes/properties.js:83-84 | an update sending `sizeSqft` as a numeral string stores that number, and the record still conforms |
| PropertyRoutes.SizeCast | server/models/Property.js:19 | a numeral string sent for `sizeSqft` is cast to its number |
| PropertyRoutes.SizeChangeConforms | server/models/Property.js:19 | any number of square feet keeps a conforming record conforming |
| PropertyRoutes.UpdateCastsPrice | server/routes/properties.js:83-84 | an update sending a `price` object with a numeral amount stores the number; the object is replaced and undeclared sub-fields are dropped; `perUnit` is "Total" again, under the nested-default assumption named under "## Left out" |
| PropertyRoutes.AssignOneField | server/routes/properties.js:83-84 | assigning one declared field onto a stored record changes that field only, to its cast value |
| PropertyRoutes.SellerCastUnchanged | server/models/Property.js:23 | the seller id is stored as given |
| PropertyRoutes.SellerChangeConforms | server/models/Property.js:23 | a conforming record with another non-empty seller still conforms |
| PropertyRoutes.DeleteProperty | server/routes/properties.js:89-95 | 404, then 403, then the listing is removed and its id is gone; its images are not deleted |
| PropertyRoutes.RemovedIdGone | server/routes/properties.js:93 | with unique ids, removing a listing leaves no listing with its id |
| AddProperty.KeyOf | client/src/pages/AddProperty.jsx:15 | `prefix.key`, or the bare key at the top level |
| AddProperty.ArrayFrom | client/src/pages/AddProperty.jsx:18 | `Array.from` throws exactly on `undefined` and `null`; an array gives its items, a string one item per character |
| AddProperty.ImageEntries | client/src/pages/AddProperty.jsx:18 | one `images` entry per item, in order |
| AddProperty.FlattenField | client/src/pages/AddProperty.jsx:14-23 | outside `images` only strings, numbers and arrays are appended; an `images` field throws exactly when it is `undefined` or `null` |
| AddProperty.Flatten | client/src/pages/AddProperty.jsx:12-25 | outside `images` the walk appends only strings, numbers and arrays; objects and files are walked into, `undefined` and `null` skipped |
| AddProperty.FlattenAppend | client/src/pages/AddProperty.jsx:13-24 | the walk over two runs of fields is the first walk, then the second unless the first threw |
| AddProperty.FormData.constructor | client/src/pages/AddProperty.jsx:9 | a new buffer is empty |
| AddProperty.FormData.Append | client/src/pages/AddProperty.jsx:22 | `fd.append` adds exactly one entry at the end |
| AddProperty.FlattenInto | client/src/pages/AddProperty.jsx:12-25 | the loop appends exactly the walk's entries and reports whether it threw |
| AddProperty.FlattenFieldInto | client/src/pages/AddProperty.jsx:14-23 | one field appends exactly that field's entries |
| AddProperty.AppendImages | client/src/pages/AddProperty.jsx:18 | the images loop appends one entry per file, in order |
| AddProperty.FlattenStep | client/src/pages/AddProperty.jsx:13 | the walk over one more field extends the previous walk |
| AddProperty.BuildFormData | client/src/pages/AddProperty.jsx:8-27 | a fresh buffer holding exactly the walk's entries |
| AddProperty.FlattenNamesUnderPrefix | client/src/pages/AddProperty.jsx:15-20 | under a prefix, every entry is an `images` entry or is named `prefix.` followed by the key |
| AddProperty.ImagesInOrder | client/src/pages/AddProperty.jsx:17-18 | an `images` field appends its files in order, whatever the prefix |
| AddProperty.NestedUnderDottedKey | client/src/pages/AddProperty.jsx:19-20 | a nested object is walked under the dotted key |
| AddProperty.ArrayAppendedWhole | client/src/pages/AddProperty.jsx:19-22 | an array under another key is appended whole, as one entry |
| AddProperty.FlatFormEntries | client/src/pages/AddProperty.jsx:13-24 | in a flat form, each defined value appears once, under its key, in order |
| AddProperty.ThrowsIffMissingImages | client/src/pages/AddProperty.jsx:17-18 | the walk throws exactly when some `images` field is `undefined` or `null` |
| AddProperty.ErrorMessage | client/src/pages/AddProperty.jsx:47-49 | never empty; the joined server messages when they are not empty; else the server's `error` when not empty; else the fallback, which is also shown without a response |
| AddProperty.CreateFailedShown | client/src/pages/AddProperty.jsx:47-49 | the create route's refusal, an `error` without `errors`, is shown as "Create failed" |
| AddProperty.JoinEmptyIff | client/src/pages/AddProperty.jsx:47 | the joined messages are empty exactly for no messages or one empty message |
| AddProperty.ErrorsFallThrough | client/src/pages/AddProperty.jsx:47-49 | empty messages fall through to `error`, then to the fallback; other messages win |
| AddProperty.ThrownWalkShowsFallback | client/src/pages/AddProperty.jsx:17-49 | a walk that throws shows the fallback message |
| SearchFilter.KeepNonEmpty | client/src/components/SearchFilter.jsx:11 | exactly the entries whose value is not empty, in order |
| SearchFilter.KeepNonEmptyAppend | client/src/components/SearchFilter.jsx:11 | the filter distributes over concatenation |
| SearchFilter.KeepNonEmptyKeepsAll | client/src/components/SearchFilter.jsx:11 | a form without empty values is kept whole |
| SearchFilter.KeepNonEmptyIdempotent | client/src/components/SearchFilter.jsx:11 | filtering twice is filtering once, and no key is added |
| SearchFilter.Utf8 | client/src/components/SearchFilter.jsx:10-12 | one to four bytes per character; ASCII is one byte, anything else only high bytes |
| SearchFilter.EncodeByte | client/src/components/SearchFilter.jsx:10-12 | one byte becomes one to three characters |
| SearchFilter.FormEncode | client/src/components/SearchFilter.jsx:10-12 | an encoded name or value uses only unreserved characters, `+` and `%` escapes |
| SearchFilter.Pairs | client/src/components/SearchFilter.jsx:10-12 | one `key=value` pair per entry, both form-encoded |
| SearchFilter.SearchPath | client/src/components/SearchFilter.jsx:8-16 | the path starts with `/buy?`; it is exactly `/buy?` when every field is empty, and otherwise its query splits at `&` into one `key=value` pair per non-empty field, in form order |
| SearchFilter.EmptySearch | client/src/components/SearchFilter.jsx:11-15 | a form whose values are all empty navigates to `/buy?` |
| SearchFilter.EncodeBytesChars | client/src/components/SearchFilter.jsx:10-12 | encoded bytes use only unreserved characters, `+` and `%` escapes |
| SearchFilter.FormEncodeHasNoDelimiters | client/src/components/SearchFilter.jsx:10-12 | an encoded key or value holds no `&`, `=` or space |
| SearchFilter.Serialize | client/src/components/SearchFilter.jsx:10-12 | no fields give the empty query; otherwise splitting the query string at `&` gives back the `name=value` pairs, one per field, in order |
| SearchFilter.HexValue | client/src/components/SearchFilter.jsx:10-12 | a hex digit's value is below 16 |
| SearchFilter.DecodeEncodedByte | client/src/components/SearchFilter.jsx:10-12 | percent-decoding undoes the encoding of one byte |
| SearchFilter.DecodeEncodedBytes | client/src/components/SearchFilter.jsx:10-12 | percent-decoding undoes the encoding of a byte string |
| SearchFilter.Utf8DecodeChar | client/src/components/SearchFilter.jsx:10-12 | UTF-8 decoding undoes the encoding of one character |
| SearchFilter.DecodeTwo | client/src/components/SearchFilter.jsx:10-12 | the two-byte form decodes back |
| SearchFilter.DecodeThree | client/src/components/SearchFilter.jsx:10-12 | the three-byte form decodes back |
| SearchFilter.DecodeFour | client/src/components/SearchFilter.jsx:10-12 | the four-byte form decodes back |
| SearchFilter.Utf8RoundTrip | client/src/components/SearchFilter.jsx:10-12 | UTF-8 decoding undoes the encoding of a string |
| SearchFilter.FormRoundTrip | client/src/components/SearchFilter.jsx:10-12 | form decoding gives back every encoded key or value |

## Left out

- The package manifest is not part of this model, so the Mongoose version is unknown. The model takes the query filter to reach the database as built, which is the default from Mongoose 7 on (`strictQuery: false`). Under Mongoose 6's default (`strictQuery` on), the undeclared `locationText` key would be stripped from the filter, and a location search would then match every listing instead of none. The price filter does not depend on this, since `price` is a declared path.
- PropertyRoutes.UpdateCastsPrice: a `price` object assigned in the update route gets `perUnit` "Total" when it lacks one. This takes Mongoose's nested set to re-apply the defaults of the replaced object's sub-paths, as recent releases do. A Mongoose that does not would save the `price` object without `perUnit`, and the model does not capture that variant.
- PropertyRoutes.UpdateProperty: the saved record inherits the same `perUnit` default on a replaced `price` object, under the same assumption.
- PropertyRoutes.UpdateCopiesBodyFields: a `price` in the body is stored as the schema's cast of it, `perUnit` default included, under the same assumption.
- PropertyRoutes.AssignOneField: the cast value of an assigned `price` carries the `perUnit` default, under the same assumption.
- PropertySchema.CastValue: `seller` is kept as given. ObjectId casting and its 24-hex-digit format are not modelled; any non-empty string counts as an id.
- PropertySchema.CastArray: a `null` item is kept and accepted, and an array cast from a lone scalar wraps it. Mongoose's `castNonArrays` option is taken at its default.
- PropertySchema.CastNumber: numerals are integers only (see `Number()` below). A decimal such as `"12.5"` does not cast and is refused, where Mongoose would store 12.5.
- SearchFilter.SearchPath takes the form values as a sequence of entries. `Object.fromEntries` of the form's own object has distinct keys, so the sequence has no repeated key; a repeated key is not modelled.
- Logging out, cookie options (`httpOnly`, `secure`, `sameSite`, expiry) and `console.error` logging are I/O. Register, login and delete return the token or the cleared cookie as part of the reply.
- bcrypt, JWT signing and verification, the Cloudinary upload and bulk delete, and the multer upload are foreign code. They are function parameters; the image host's state is the log of bulk deletes. Token expiry is not modelled.
- The upload middleware's cap of six files (`upload.array("images", 6)`) is not part of this model; the route receives the files as a sequence.
- MongoDB's `$text` search is a parameter (`search`). The `RegExp(location, "i")` filter is a case-insensitive literal match, without regular-expression syntax.
- Timestamps are not modelled. Insertion order stands for `createdAt`, so "newest first" is the reverse of insertion order.
- Store.Database.CreateUser: the unique index is checked in the same step as the insert. The race between the service's `findOne` and `create` under concurrent requests is not modelled.
- Promise.all in the list route runs its two queries concurrently. The model evaluates them one after the other over the same state.
- `Number()` is modelled for decimal integers, optionally signed, with surrounding whitespace and the empty string as 0. Fractions, exponents, hex literals and `Infinity` read as NaN.
- PropertyRoutes.CreateProperty: the 400 reply's `details` (the thrown error's `message`) is not carried; the model answers `{ error: "Create failed" }` only. A numeric `price` assigned to the nested `price` path may also be reported by Mongoose as a cast error on `price` itself, which `PropertySchema.SchemaErrors` does not list; the reply is 400 either way.
- Documents.Value has no boolean. A JSON body carrying `true` or `false` in a listing field, and its cast by Mongoose, is not modelled.
- UserSchema.UserInput holds strings only. A JSON number or boolean in the registration or login body, which the validators turn into text while `bcrypt` throws on a non-string password, is not modelled.
- AuthRoutes.ImagesTypeError: the `TypeError`'s exact text (which names `map` or `split`) and its stack are not modelled.
- `page` and `limit` are taken as already parsed numbers. A non-numeric `page` or `limit`, and the NaN it produces, are not modelled.
- Lowercasing maps the ASCII letters only; Unicode case folding is not modelled. Trimming uses JavaScript's whitespace set.
- `isEmail` and `isMobilePhone('en-IN')` are simplified. The address needs no blanks, a single `@` after a non-empty local part, and a dot inside the domain. The phone number is ten digits starting with 6 to 9, optionally after `+91`, `91` or `0`.
- The user model's validation error message lists the failing paths, not Mongoose's full text.
- An `Error`'s stack trace is an optional string supplied with the error; no real stack is produced.
- A malformed id (Mongoose `CastError`) is treated like an id that no listing has.
- `findOne({ email: undefined })` is treated as a lookup of the empty address.
- A `FileList` is modelled as an array of files. Other array-like objects with a `length` property are modelled as empty.
- Object key order follows the field order given. JavaScript's ordering of integer-like keys first is not modelled.
- The search form's values are strings. Other value types reaching `URLSearchParams` are not modelled.
- The error handler is not mounted by the server entry point, which is not part of this model. Its function is modelled standalone, and the routes return `Forward(err, status)` where they call `next(err)`.
- A `File` value under a key other than `images` is recursed into as a plain object. It has no own enumerable keys, so it contributes nothing.
- The client pages other than the add-listing form and the search form (home, listings, dashboard, profile, edit, login, register, header, routing) are presentation and are not part of this model.
