/**
 * The account routes: registration behind its field validators, login,
 * reading the caller's profile, and deleting the caller's account together
 * with every listing it sells and those listings' images at the image host.
 */
module AuthRoutes {
  import opened Wrappers
  import Text
  import opened Documents
  import opened UserSchema
  import opened Store
  import opened ErrorHandling
  import opened Credentials
  import opened AuthService

  // ---------------------------------------------------------------------------
  // image URL to public id
  // ---------------------------------------------------------------------------

  /**
   * The image host's public id in a delivery URL: the `/`-separated segments
   * from the first `realestate` segment on, joined back, with everything from
   * the last `.` removed.
   */
  function PublicId(url: string): string
  {
    var parts := Text.Split(url, '/');
    var path := Text.Join(Text.Slice(parts, Text.IndexOf(parts, "realestate")), "/");
    Text.Substring(path, 0, Text.LastIndexOf(path, '.'))
  }

  /** No segment of a path holds a `/`. */
  predicate Segments(parts: seq<string>)
  {
    forall i :: 0 <= i < |parts| ==> '/' !in parts[i]
  }

  /**
   * For a URL whose path runs through a `realestate` segment, the public id
   * is the path from that segment on, without the file extension.
   */
  lemma PublicIdOfHostedUrl(prefix: seq<string>, folders: seq<string>, name: string, ext: string)
    requires "realestate" !in prefix
    requires Segments(prefix) && Segments(folders) && '/' !in name && '/' !in ext && '.' !in ext
    ensures PublicId(Text.Join(prefix + ["realestate"] + folders + [name + "." + ext], "/"))
         == Text.Join(["realestate"] + folders + [name], "/")
  {
    var file := name + "." + ext;
    var rest := folders + [file];
    var parts := prefix + ["realestate"] + rest;
    assert parts == prefix + ["realestate"] + folders + [file];
    HostedSegments(prefix, folders, file);
    Text.SplitJoin(parts, '/');
    SliceFromFolder(prefix, rest);
    assert ["realestate"] + rest == (["realestate"] + folders) + [file];
    StripExtension(["realestate"] + folders, name, ext);
  }

  lemma HostedSegments(prefix: seq<string>, folders: seq<string>, file: string)
    requires Segments(prefix) && Segments(folders) && '/' !in file
    ensures Segments(prefix + ["realestate"] + folders + [file])
  {
    var parts := prefix + ["realestate"] + folders + [file];
    forall i | 0 <= i < |parts| ensures '/' !in parts[i] {
      if i < |prefix| {
        assert parts[i] == prefix[i];
      } else if i == |prefix| {
      } else if i < |parts| - 1 {
        assert parts[i] == folders[i - |prefix| - 1];
      } else {
        assert parts[i] == file;
      }
    }
  }

  /** `parts.slice(parts.indexOf('realestate'))` when the first `realestate` segment follows `prefix`. */
  lemma SliceFromFolder(prefix: seq<string>, rest: seq<string>)
    requires "realestate" !in prefix
    ensures var parts := prefix + ["realestate"] + rest;
      Text.Slice(parts, Text.IndexOf(parts, "realestate")) == ["realestate"] + rest
  {
    var parts := prefix + ["realestate"] + rest;
    assert parts[|prefix|] == "realestate";
    assert Text.IndexOf(parts, "realestate") == |prefix|;
    assert parts[|prefix|..] == ["realestate"] + rest;
  }

  /** Cutting a joined path at its last `.` drops the extension of its last segment. */
  lemma StripExtension(tail: seq<string>, name: string, ext: string)
    requires '.' !in ext
    ensures var path := Text.Join(tail + [name + "." + ext], "/");
      Text.Substring(path, 0, Text.LastIndexOf(path, '.')) == Text.Join(tail + [name], "/")
  {
    Text.JoinExtendLast(tail, name, "." + ext, "/");
    var kept := Text.Join(tail + [name], "/");
    assert name + "." + ext == name + ("." + ext);
    assert Text.Join(tail + [name + "." + ext], "/") == kept + ['.'] + ext;
    Text.LastIndexOfBeforeTail(kept, '.', ext);
    assert (kept + ['.'] + ext)[0..|kept|] == kept;
  }

  /**
   * A URL the image host returns for an upload to the `realestate/properties`
   * folder, such as `https://res.cloudinary.com/demo/image/upload/v1/realestate/properties/abc.jpg`,
   * yields `realestate/properties/abc`.
   */
  lemma PublicIdOfUpload(prefix: seq<string>, name: string, ext: string)
    requires "realestate" !in prefix && Segments(prefix)
    requires '/' !in name && '/' !in ext && '.' !in ext
    ensures PublicId(Text.Join(prefix + ["realestate", "properties", name + "." + ext], "/"))
         == "realestate" + "/" + ("properties" + "/" + name)
  {
    assert prefix + ["realestate", "properties", name + "." + ext]
        == prefix + ["realestate"] + ["properties"] + [name + "." + ext];
    assert Segments(["properties"]);
    PublicIdOfHostedUrl(prefix, ["properties"], name, ext);
    var kept := ["realestate"] + ["properties"] + [name];
    assert kept[1..] == ["properties", name];
    assert Text.Join(kept[1..], "/") == "properties" + "/" + name;
  }

  /**
   * Without a `realestate` segment, `indexOf` gives -1 and `slice(-1)` keeps
   * the last segment; a last segment without a `.` gives the empty id.
   */
  lemma PublicIdWithoutFolder(url: string)
    requires "realestate" !in Text.Split(url, '/')
    ensures var parts := Text.Split(url, '/');
      var last := parts[|parts| - 1];
      PublicId(url) == Text.Substring(last, 0, Text.LastIndexOf(last, '.'))
      && ('.' !in last ==> PublicId(url) == "")
  {
  }

  /** `images.map(...)` for one listing. */
  function PublicIdsOf(urls: seq<string>): (r: seq<string>)
    ensures |r| == |urls|
    ensures forall i :: 0 <= i < |urls| ==> r[i] == PublicId(urls[i])
  {
    seq(|urls|, i requires 0 <= i < |urls| => PublicId(urls[i]))
  }

  /** The number of image items the listings hold together. */
  function ImageCount(ls: seq<Listing>): nat
  {
    if ls == [] then 0 else |ImageItems(ls[0].doc)| + ImageCount(ls[1..])
  }

  /**
   * `properties.flatMap(...)`: each listing's ids in turn, or none when
   * reading some listing's images throws.
   */
  function PublicIds(ls: seq<Listing>): (r: Option<seq<string>>)
    ensures r.Some? <==> forall i :: 0 <= i < |ls| ==> ImageUrls(ls[i].doc).Some?
    ensures r.Some? ==> |r.value| == ImageCount(ls)
  {
    if ls == [] then Some([])
    else match ImageUrls(ls[0].doc)
      case None => None
      case Some(urls) =>
        match PublicIds(ls[1..])
        case None => None
        case Some(rest) => Some(PublicIdsOf(urls) + rest)
  }

  /**
   * The id list of two runs of listings is the first run's ids followed by
   * the second's, and it throws exactly when one of the runs does.
   */
  lemma {:induction false} PublicIdsAppend(a: seq<Listing>, b: seq<Listing>)
    ensures PublicIds(a + b).Some? <==> PublicIds(a).Some? && PublicIds(b).Some?
    ensures PublicIds(a + b).Some? ==> PublicIds(a + b).value == PublicIds(a).value + PublicIds(b).value
  {
    if a == [] {
      assert a + b == b;
      assert PublicIds(a) == Some([]);
    } else {
      var x, rest := a[0], a[1..];
      assert a == [x] + rest;
      PublicIdsAppend(rest, b);
      PublicIdsStep(x, rest, b);
    }
  }

  /** One inductive step of `PublicIdsAppend`: a listing put in front of both runs. */
  lemma PublicIdsStep(x: Listing, rest: seq<Listing>, b: seq<Listing>)
    requires PublicIds(rest + b).Some? <==> PublicIds(rest).Some? && PublicIds(b).Some?
    requires PublicIds(rest + b).Some? ==> PublicIds(rest + b).value == PublicIds(rest).value + PublicIds(b).value
    ensures PublicIds([x] + rest + b).Some? <==> PublicIds([x] + rest).Some? && PublicIds(b).Some?
    ensures PublicIds([x] + rest + b).Some? ==>
              PublicIds([x] + rest + b).value == PublicIds([x] + rest).value + PublicIds(b).value
  {
    assert [x] + rest + b == [x] + (rest + b);
    PublicIdsCons(x, rest + b);
    PublicIdsCons(x, rest);
    if ImageUrls(x.doc).Some? && PublicIds(rest).Some? && PublicIds(b).Some? {
      var ids := PublicIdsOf(ImageUrls(x.doc).value);
      Store.ConcatAssoc(ids, PublicIds(rest).value, PublicIds(b).value);
    }
  }

  /** `flatMap` over a listing put in front: its ids, then the rest's, unless either read throws. */
  lemma PublicIdsCons(x: Listing, rest: seq<Listing>)
    ensures PublicIds([x] + rest) ==
      if ImageUrls(x.doc).Some? && PublicIds(rest).Some?
      then Some(PublicIdsOf(ImageUrls(x.doc).value) + PublicIds(rest).value)
      else None
  {
    assert ([x] + rest)[0] == x && ([x] + rest)[1..] == rest;
  }

  // ---------------------------------------------------------------------------
  // POST /register: the validators
  // ---------------------------------------------------------------------------

  /** One entry of the `errors` array: the field and its message. */
  datatype FieldError = FieldError(path: string, msg: string)

  /** A rough `isEmail`: one local part, an `@`, and a dotted domain, with no blanks. */
  predicate IsEmail(s: string)
  {
    var at := Text.LastIndexOf(s, '@');
    && at > 0
    && Unbroken(s)
    && '@' !in s[..at]
    && var domain := s[at + 1..];
       0 < Text.LastIndexOf(domain, '.') < |domain| - 1
  }

  /** Ten digits starting with 6, 7, 8 or 9. */
  predicate IsMobileDigits(s: string)
  {
    |s| == 10 && '6' <= s[0] <= '9' && forall i :: 0 <= i < |s| ==> IsDigit(s[i])
  }

  /** `isMobilePhone(s, "en-IN")`: the ten digits after an optional `+91`, `91` or `0`. */
  predicate IsIndianMobile(s: string)
  {
    || IsMobileDigits(s)
    || ("+91" <= s && IsMobileDigits(s[3..]))
    || ("91" <= s && IsMobileDigits(s[2..]))
    || ("0" <= s && IsMobileDigits(s[1..]))
  }

  /** A string without blanks. */
  predicate Unbroken(s: string)
  {
    forall i :: 0 <= i < |s| ==> !Text.IsWhitespace(s[i])
  }

  /**
   * An address with a non-empty local part, a host and a dot-free top-level
   * domain, none holding `@` or a blank, passes the format check.
   */
  lemma EmailAccepted(local: string, host: string, tld: string)
    requires local != [] && host != [] && tld != []
    requires '@' !in local && '@' !in host && '@' !in tld && '.' !in tld
    requires Unbroken(local) && Unbroken(host) && Unbroken(tld)
    ensures IsEmail(local + "@" + (host + "." + tld))
  {
    AtSplits(local, host + "." + tld);
    DotSplits(host, tld);
    UnbrokenAddress(local, host, tld);
  }

  /** The `@` of `local@domain` is the last one when the domain has none. */
  lemma AtSplits(local: string, domain: string)
    requires '@' !in domain
    ensures Text.LastIndexOf(local + "@" + domain, '@') == |local|
    ensures (local + "@" + domain)[..|local|] == local && (local + "@" + domain)[|local| + 1..] == domain
  {
    Text.LastIndexOfSplit(local, "@", '@', domain);
  }

  /** A domain `host.tld` with a dot-free `tld` has its last dot inside. */
  lemma DotSplits(host: string, tld: string)
    requires host != [] && tld != [] && '.' !in tld
    ensures 0 < Text.LastIndexOf(host + "." + tld, '.') < |host + "." + tld| - 1
  {
    Text.LastIndexOfSplit(host, ".", '.', tld);
  }

  /** An address glued from blank-free parts is blank-free. */
  lemma UnbrokenAddress(local: string, host: string, tld: string)
    requires Unbroken(local) && Unbroken(host) && Unbroken(tld)
    ensures Unbroken(local + "@" + (host + "." + tld))
  {
    var domain := host + "." + tld;
    var s := local + "@" + domain;
    forall i | 0 <= i < |s|
      ensures !Text.IsWhitespace(s[i])
    {
      if i < |local| {
        assert s[i] == local[i];
      } else if |local| < i < |local| + 1 + |host| {
        assert s[i] == domain[i - |local| - 1] == host[i - |local| - 1];
      } else if i > |local| + |host| + 1 {
        assert s[i] == domain[i - |local| - 1] == tld[i - |local| - |host| - 2];
      }
    }
  }

  /** An address without a local part fails the format check: it has no `@`, or it starts with one. */
  lemma NoLocalPartRefused(s: string)
    requires '@' !in s || (s != [] && s[0] == '@')
    ensures !IsEmail(s)
  {
    var at := Text.LastIndexOf(s, '@');
    if at > 0 {
      assert s[..at][0] == '@';
    }
  }

  /** An address whose domain, after its only `@`, holds no dot fails the format check. */
  lemma DotlessDomainRefused(local: string, domain: string)
    requires '@' !in domain && '.' !in domain
    ensures !IsEmail(local + "@" + domain)
  {
    AtSplits(local, domain);
  }

  /** Ten digits starting with 6 to 9 pass the mobile check, bare or after `+91`, `91` or `0`. */
  lemma MobileAccepted(digits: string)
    requires IsMobileDigits(digits)
    ensures IsIndianMobile(digits)
    ensures IsIndianMobile("+91" + digits) && IsIndianMobile("91" + digits) && IsIndianMobile("0" + digits)
  {
    assert ("+91" + digits)[3..] == digits;
    assert ("91" + digits)[2..] == digits;
    assert ("0" + digits)[1..] == digits;
  }

  /**
   * Fewer than ten characters, or more than thirteen, never pass the mobile
   * check, and ten characters pass exactly when they are ten digits starting
   * with 6 to 9 (a prefix would leave too few digits).
   */
  lemma MobileRefused(s: string)
    ensures |s| < 10 || |s| > 13 ==> !IsIndianMobile(s)
    ensures |s| == 10 ==> (IsIndianMobile(s) <==> IsMobileDigits(s))
  {
    if |s| < 10 || |s| > 13 || |s| == 10 {
      assert |s| >= 3 ==> |s[3..]| == |s| - 3;
      assert |s| >= 2 ==> |s[2..]| == |s| - 2;
      assert |s| >= 1 ==> |s[1..]| == |s| - 1;
    }
  }

  predicate NameOk(body: UserInput) { OrEmpty(body.name) != "" }
  predicate EmailOk(body: UserInput) { IsEmail(OrEmpty(body.email)) }
  predicate PasswordOk(body: UserInput) { |OrEmpty(body.password)| >= 6 }
  predicate RoleOk(body: UserInput) { OrEmpty(body.role) in Roles }
  /** `optional({ checkFalsy: true })`: a missing or empty phone number is not checked. */
  predicate PhoneOk(body: UserInput) { OrEmpty(body.phoneNumber) == "" || IsIndianMobile(body.phoneNumber.value) }

  function Fails(ok: bool, path: string, msg: string): seq<FieldError>
  {
    if ok then [] else [FieldError(path, msg)]
  }

  /** The failed validators' errors, in the order the validators are declared. */
  function RegisterErrors(body: UserInput): (r: seq<FieldError>)
    ensures r == [] <==> NameOk(body) && EmailOk(body) && PasswordOk(body) && RoleOk(body) && PhoneOk(body)
    ensures !NameOk(body) ==> FieldError("name", "Name is required") in r
    ensures !EmailOk(body) ==> FieldError("email", "Must be a valid email") in r
    ensures !PasswordOk(body) ==> FieldError("password", "Password must be at least 6 characters long") in r
    ensures !RoleOk(body) ==> FieldError("role", "Invalid role") in r
    ensures !PhoneOk(body) ==> FieldError("phoneNumber", "Must be a valid Indian mobile number") in r
    ensures |r| <= 5
  {
    Fails(NameOk(body), "name", "Name is required")
    + Fails(EmailOk(body), "email", "Must be a valid email")
    + Fails(PasswordOk(body), "password", "Password must be at least 6 characters long")
    + Fails(RoleOk(body), "role", "Invalid role")
    + Fails(PhoneOk(body), "phoneNumber", "Must be a valid Indian mobile number")
  }

  /** A body the validators accept names every required field and a role from the list. */
  lemma ValidatedBody(body: UserInput)
    requires RegisterErrors(body) == []
    ensures body.name.Some? && body.email.Some? && body.password.Some? && body.role.Some?
    ensures body.role.value in Roles && |body.password.value| >= 6
  {
  }

  // ---------------------------------------------------------------------------
  // handlers
  // ---------------------------------------------------------------------------

  /** The user as `GET /me` returns it: every field but the password. */
  datatype Profile = Profile(id: Id, name: string, email: string, role: string, phoneNumber: Option<string>)

  datatype AuthReply =
    /** 400 with the validators' errors. */
    | Invalid(errors: seq<FieldError>)
    /** `status` with the user, the token set as the session cookie. */
    | SignedIn(status: int, user: UserView, token: string)
    | Me(profile: Profile)
    /** The session cookie cleared and a confirmation message. */
    | AccountDeleted
    /** `next(err)` while the response status is `resStatus`. */
    | Forward(err: Error, resStatus: int)

  /**
   * `POST /register`: the validators first; only a body they accept reaches
   * the registration service, whose success answers 201 and whose errors go
   * to the error handler.
   */
  method Register(db: Database, body: UserInput, hash: string -> string, sign: Claims -> string, newId: Id)
    returns (reply: AuthReply)
    requires db.Valid() && newId !in db.users
    modifies db
    ensures db.Valid()
    ensures db.listings == old(db.listings) && db.imageDeletes == old(db.imageDeletes)
    ensures RegisterErrors(body) != [] ==> reply == Invalid(RegisterErrors(body)) && db.users == old(db.users)
    ensures RegisterErrors(body) == [] && EmailInUse(old(db.users), LookupKey(body.email)) ==>
      reply == Forward(EmailTaken, 200) && db.users == old(db.users)
    ensures RegisterErrors(body) == [] && !EmailInUse(old(db.users), LookupKey(body.email)) && body.password.Some? ==>
      if MakeUser(Hashed(body, hash)).Ok? then reply.SignedIn?
      else reply == Forward(ValidationFailed(MakeUser(Hashed(body, hash)).error), 200)
    ensures reply.SignedIn? ==>
      && RegisterErrors(body) == [] && body.password.Some? && MakeUser(Hashed(body, hash)).Ok?
      && var u := MakeUser(Hashed(body, hash)).value;
         && db.users == old(db.users)[newId := u]
         && reply == SignedIn(201, Brief(newId, u.name, u.email, u.role), sign(Claims(newId, u.role)))
    ensures !reply.SignedIn? ==> db.users == old(db.users)
  {
    var errors := RegisterErrors(body);
    if errors != [] {
      return Invalid(errors);
    }
    var r := RegisterUser(db, body, hash, sign, newId);
    match r
    case Ok(session) =>
      reply := SignedIn(201, session.user, session.token);
    case Err(e) =>
      reply := Forward(e, 200);
  }

  /** `POST /login`: the service's session with status 200, or its error passed on. */
  function LoginRoute(users: map<Id, User>, email: Option<string>, password: Option<string>,
                      compare: (string, string) -> bool, sign: Claims -> string): (reply: AuthReply)
    requires UniqueEmails(users)
    ensures reply.SignedIn? <==> Login(users, email, password, compare, sign).Ok?
    ensures reply.SignedIn? ==>
      var session := Login(users, email, password, compare, sign).value;
      reply.status == 200 && reply.user == session.user && reply.token == session.token
    ensures !reply.SignedIn? ==> reply == Forward(Login(users, email, password, compare, sign).error, 200)
  {
    match Login(users, email, password, compare, sign)
    case Ok(session) => SignedIn(200, session.user, session.token)
    case Err(e) => Forward(e, 200)
  }

  /** A failed login reaches the client as 401 "Invalid credentials", whatever the cause. */
  lemma LoginFailureIs401(users: map<Id, User>, email: Option<string>, password: string,
                          compare: (string, string) -> bool, sign: Claims -> string, production: bool)
    requires UniqueEmails(users)
    requires LoginRoute(users, email, Some(password), compare, sign).Forward?
    ensures var r := LoginRoute(users, email, Some(password), compare, sign);
      HandleError(r.err, r.resStatus, production).status == 401
      && HandleError(r.err, r.resStatus, production).error == "Invalid credentials"
  {
  }

  /** `GET /me`: the caller's stored profile, or 404 "User not found" through the error handler. */
  function ShowMe(users: map<Id, User>, userId: Id): (reply: AuthReply)
    ensures userId in users ==>
      var u := users[userId];
      reply == Me(Profile(userId, u.name, u.email, u.role, u.phoneNumber))
    ensures userId !in users ==> reply == Forward(Error(None, "User not found", None), 404)
  {
    if userId in users then
      var u := users[userId];
      Me(Profile(userId, u.name, u.email, u.role, u.phoneNumber))
    else
      Forward(Error(None, "User not found", None), 404)
  }

  /** The 404 set before throwing survives the error handler. */
  lemma ShowMeMissingIs404(users: map<Id, User>, userId: Id, production: bool)
    requires userId !in users
    ensures var r := ShowMe(users, userId);
      HandleError(r.err, r.resStatus, production) == ErrorReply(404, "User not found", if production then Stack.Null else Omitted)
  {
  }

  /**
   * Which step of the account deletion throws, if any: the lookup of the
   * caller's listings, the image host, the listing delete, the user delete.
   */
  datatype Faults = Faults(find: Option<Error>, storage: Option<Error>, listings: Option<Error>, user: Option<Error>)

  /**
   * Reading the caller's listings' images throws: some listing the caller
   * sells has a `null` `images` or a non-string item in it.
   */
  predicate ImagesUnreadable(ls: seq<Listing>, userId: Id)
  {
    |Owned(ls, userId)| > 0 && PublicIds(Owned(ls, userId)).None?
  }

  /** The bulk image delete is sent only when the caller sells listings whose images read as at least one id. */
  predicate CallsStorage(ls: seq<Listing>, userId: Id)
  {
    |Owned(ls, userId)| > 0 && PublicIds(Owned(ls, userId)).Some? && |PublicIds(Owned(ls, userId)).value| > 0
  }

  /** What `url.split` on a `null` item, or `map` on a `null` array, throws; its exact text is not modelled. */
  const ImagesTypeError: Error := Error(None, "Cannot read properties of null", None)

  /**
   * The first step of `DELETE /me`: find the caller's listings, derive the
   * public ids of their images (which throws on a `null` image) and, when
   * there are any, send them to the image host in one bulk delete; `fault`
   * is what that call throws, if anything.
   */
  method DeleteOwnedImages(db: Database, userId: Id, fault: Option<Error>) returns (thrown: Option<Error>)
    requires db.Valid()
    modifies db
    ensures db.Valid()
    ensures thrown.Some? <==>
      ImagesUnreadable(old(db.listings), userId) || (CallsStorage(old(db.listings), userId) && fault.Some?)
    ensures ImagesUnreadable(old(db.listings), userId) ==> thrown == Some(ImagesTypeError)
    ensures !ImagesUnreadable(old(db.listings), userId) && thrown.Some? ==> thrown == fault
    ensures thrown.Some? ==> unchanged(db)
    ensures thrown.None? ==>
      && db.imageDeletes == old(db.imageDeletes)
           + (if CallsStorage(old(db.listings), userId) then [PublicIds(Owned(old(db.listings), userId)).value] else [])
      && db.listings == old(db.listings) && db.users == old(db.users)
  {
    thrown := None;
    var owned := Owned(db.listings, userId);
    if |owned| > 0 {
      var ids := PublicIds(owned);
      if ids.None? {
        return Some(ImagesTypeError);
      }
      if |ids.value| > 0 {
        if fault.Some? {
          return fault;
        }
        db.DeleteImages(ids.value);
      }
    }
  }

  /** The image step throws: reading the images fails, or the image host is called and throws. */
  predicate StorageFails(ls: seq<Listing>, userId: Id, faults: Faults)
  {
    ImagesUnreadable(ls, userId) || (CallsStorage(ls, userId) && faults.storage.Some?)
  }

  /**
   * `DELETE /me`: find the caller's listings, delete their images at the
   * image host, then the listings, then the user; a step that throws ends
   * the handler and passes its error on, and the later steps never run.
   */
  method DeleteMe(db: Database, userId: Id, faults: Faults) returns (reply: AuthReply)
    requires db.Valid()
    modifies db
    ensures db.Valid()
    ensures faults.find.Some? ==> reply == Forward(faults.find.value, 200) && unchanged(db)
    ensures faults.find.None? && ImagesUnreadable(old(db.listings), userId) ==>
      reply == Forward(ImagesTypeError, 200) && unchanged(db)
    ensures faults.find.None? && !ImagesUnreadable(old(db.listings), userId) && StorageFails(old(db.listings), userId, faults) ==>
      reply == Forward(faults.storage.value, 200) && unchanged(db)
    ensures faults.find.None? && !StorageFails(old(db.listings), userId, faults) ==>
      db.imageDeletes == old(db.imageDeletes)
        + (if CallsStorage(old(db.listings), userId) then [PublicIds(Owned(old(db.listings), userId)).value] else [])
    ensures faults.find.None? && !StorageFails(old(db.listings), userId, faults) && faults.listings.Some? ==>
      reply == Forward(faults.listings.value, 200) && db.listings == old(db.listings) && db.users == old(db.users)
    ensures faults.find.None? && !StorageFails(old(db.listings), userId, faults) && faults.listings.None? ==>
      db.listings == Others(old(db.listings), userId)
    ensures faults.find.None? && !StorageFails(old(db.listings), userId, faults) && faults.listings.None? && faults.user.Some? ==>
      reply == Forward(faults.user.value, 200) && db.users == old(db.users)
    ensures faults.find.None? && !StorageFails(old(db.listings), userId, faults) && faults.listings.None? && faults.user.None? ==>
      reply == AccountDeleted && db.users == old(db.users) - {userId}
  {
    if faults.find.Some? {
      return Forward(faults.find.value, 200);
    }
    var thrown := DeleteOwnedImages(db, userId, faults.storage);
    if thrown.Some? {
      return Forward(thrown.value, 200);
    }
    if faults.listings.Some? {
      return Forward(faults.listings.value, 200);
    }
    db.DeleteListingsOf(userId);
    if faults.user.Some? {
      return Forward(faults.user.value, 200);
    }
    db.DeleteUser(userId);
    reply := AccountDeleted;
  }

  /**
   * After a completed deletion the caller owns no listing and has no
   * account; every other listing and user is as before.
   */
  lemma {:induction false} DeletedAccountLeavesNothing(ls: seq<Listing>, users: map<Id, User>, userId: Id)
    ensures Owned(Others(ls, userId), userId) == []
    ensures forall l :: l in ls && !OwnedBy(l, userId) ==> l in Others(ls, userId)
    ensures userId !in users - {userId}
    ensures forall u :: u in users && u != userId ==> u in users - {userId} && (users - {userId})[u] == users[u]
  {
  }

  /**
   * The image host is called exactly when the caller's listings hold at
   * least one image item and every such item is a string.
   */
  lemma {:induction false} CallsStorageIffImages(ls: seq<Listing>, userId: Id)
    ensures CallsStorage(ls, userId) <==> !ImagesUnreadable(ls, userId) && ImageCount(Owned(ls, userId)) > 0
  {
  }

  /**
   * The deletion stops at the images exactly when some listing the caller
   * sells holds images that do not read as strings.
   */
  lemma ImagesUnreadableIff(ls: seq<Listing>, userId: Id)
    ensures ImagesUnreadable(ls, userId) <==> exists l :: l in ls && OwnedBy(l, userId) && ImageUrls(l.doc).None?
  {
    var owned := Owned(ls, userId);
    if ImagesUnreadable(ls, userId) {
      var i :| 0 <= i < |owned| && ImageUrls(owned[i].doc).None?;
      assert owned[i] in owned;
    }
    if l :| l in ls && OwnedBy(l, userId) && ImageUrls(l.doc).None? {
      assert l in owned;
      var i :| 0 <= i < |owned| && owned[i] == l;
    }
  }

  /** A listing whose `images` holds a `null` item blocks its seller's account deletion. */
  lemma NullImageBlocksDeletion(ls: seq<Listing>, userId: Id, l: Listing, before: seq<Value>, after: seq<Value>)
    requires l in ls && OwnedBy(l, userId)
    requires Get(l.doc, "images") == Some(Arr(before + [Value.Null] + after))
    ensures ImagesUnreadable(ls, userId)
  {
    assert (before + [Value.Null] + after)[|before|] == Value.Null;
    ImagesUnreadableIff(ls, userId);
  }
}
