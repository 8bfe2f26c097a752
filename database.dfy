/**
 * The data layer of `src/services/database.ts`: five repositories (users,
 * services, service requests, testimonials, gallery) over the schema of
 * `schema.dfy`, held in memory.
 *
 * Each table is a sequence of rows in insertion order. A SERIAL id is drawn
 * from a per-table counter, and CURRENT_TIMESTAMP is a store-wide statement
 * counter, so within a table both ids and `createdAt` increase strictly along
 * the sequence. Prices are integer cents. The INSERT and UPDATE statements are
 * methods of the class `Store`; the SELECT statements are functions over the
 * tables, and `Store.Valid()` gathers the constraints the schema enforces.
 */
module Database {
  import opened Common
  import Schema

  /** A value of CURRENT_TIMESTAMP: the number of statements executed before. */
  type Instant = nat

  datatype User = User(
    id: int, email: string, name: string, phone: Option<string>,
    createdAt: Instant, updatedAt: Instant)

  datatype Service = Service(
    id: int, name: string, description: string, priceCents: int, durationHours: int,
    isActive: bool, createdAt: Instant, updatedAt: Instant)

  datatype ServiceRequest = ServiceRequest(
    id: int, userId: Option<int>, serviceId: Option<int>, status: string,
    scheduledDate: Option<Instant>, address: string, notes: Option<string>,
    estimatedCost: Option<int>, createdAt: Instant, updatedAt: Instant)

  datatype Testimonial = Testimonial(
    id: int, userId: Option<int>, serviceId: Option<int>, rating: int, comment: string,
    isApproved: bool, createdAt: Instant)

  datatype GalleryItem = GalleryItem(
    id: int, title: string, description: string, imageUrl: string, serviceId: Option<int>,
    isFeatured: bool, createdAt: Instant)

  /** The errors PostgreSQL raises for the constraints of the schema. */
  datatype DbError =
    | ValueTooLong(limit: nat)              // value too long for type character varying(limit)
    | NumericFieldOverflow                  // a price outside DECIMAL(10, 2)
    | CheckViolation(constraint: string)
    | UniqueViolation(constraint: string)
    | ForeignKeyViolation(constraint: string)

  /**
   * How many SERIAL ids an INSERT that ends with `err` draws. A value too long
   * or too large is rejected while the bound parameters are coerced to the
   * column types, before `nextval` runs; a CHECK, UNIQUE or FOREIGN KEY error
   * is raised once the row, id included, has been built.
   */
  function IdsDrawn(err: Option<DbError>): (r: nat)
    ensures r <= 1
    ensures r == 0 <==> err.Some? && (err.value.ValueTooLong? || err.value.NumericFieldOverflow?)
  {
    if err.Some? && (err.value.ValueTooLong? || err.value.NumericFieldOverflow?) then 0 else 1
  }

  // Rows of the joined SELECTs: the base row and the columns taken from the joined tables.
  datatype RequestWithService = RequestWithService(
    request: ServiceRequest, serviceName: string, serviceDescription: string, servicePriceCents: int)
  datatype RequestWithParties = RequestWithParties(
    request: ServiceRequest, userName: string, userEmail: string, serviceName: string)
  datatype TestimonialWithNames = TestimonialWithNames(
    testimonial: Testimonial, userName: string, serviceName: string)
  datatype GalleryWithService = GalleryWithService(item: GalleryItem, serviceName: Option<string>)

  /**
   * Assigning `s` to a VARCHAR(n) column: a longer string is an error unless
   * every character past the n-th is a space.
   */
  predicate FitsVarchar(s: string, n: nat) {
    |s| <= n || forall k :: n <= k < |s| ==> s[k] == ' '
  }

  /** The value a VARCHAR(n) column stores for `s`: cut to `n` characters. */
  function Varchar(s: string, n: nat): (r: string)
    ensures |r| <= n && r <= s
    ensures |s| <= n ==> r == s
    ensures FitsVarchar(s, n) ==> forall k :: |r| <= k < |s| ==> s[k] == ' '
  {
    if |s| <= n then s else s[..n]
  }

  /** The same for a nullable column. */
  function VarcharOrNull(s: Option<string>, n: nat): Option<string> {
    if s.Some? then Some(Varchar(s.value, n)) else None
  }

  /** DECIMAL(10, 2) holds at most 99999999.99. */
  const CentsLimit: int := 10_000_000_000

  predicate FitsMoney(cents: int) {
    -CentsLimit < cents < CentsLimit
  }

  // ---------------------------------------------------------------------------
  // Lookups by key

  function UserById(users: seq<User>, id: int): (r: Option<User>)
    ensures r.Some? ==> r.value in users && r.value.id == id
    ensures r.None? <==> forall u :: u in users ==> u.id != id
  {
    if users == [] then None
    else if users[0].id == id then Some(users[0])
    else UserById(users[1..], id)
  }

  /** `getUserByEmail`: the first row with that email. */
  function UserByEmail(users: seq<User>, email: string): (r: Option<User>)
    ensures r.Some? ==> r.value in users && r.value.email == email
    ensures r.None? <==> forall u :: u in users ==> u.email != email
  {
    if users == [] then None
    else if users[0].email == email then Some(users[0])
    else UserByEmail(users[1..], email)
  }

  /** `getServiceById`, and the right-hand side of every join on `services`. */
  function ServiceById(services: seq<Service>, id: int): (r: Option<Service>)
    ensures r.Some? ==> r.value in services && r.value.id == id
    ensures r.None? <==> forall s :: s in services ==> s.id != id
  {
    if services == [] then None
    else if services[0].id == id then Some(services[0])
    else ServiceById(services[1..], id)
  }

  /** Some stored service has this name. */
  predicate ServiceNamed(services: seq<Service>, name: string) {
    exists s :: s in services && s.name == name
  }

  /** The row a nullable foreign key joins to: a NULL key joins to nothing. */
  function UserOf(users: seq<User>, fk: Option<int>): Option<User> {
    if fk.None? then None else UserById(users, fk.value)
  }

  function ServiceOf(services: seq<Service>, fk: Option<int>): Option<Service> {
    if fk.None? then None else ServiceById(services, fk.value)
  }

  // ---------------------------------------------------------------------------
  // Table invariants: what the schema's constraints and the insertion order guarantee

  predicate UsersInOrder(users: seq<User>) {
    forall i, j :: 0 <= i < j < |users| ==> users[i].id < users[j].id && users[i].createdAt < users[j].createdAt
  }

  predicate ServicesInOrder(services: seq<Service>) {
    forall i, j :: 0 <= i < j < |services| ==> services[i].id < services[j].id && services[i].createdAt < services[j].createdAt
  }

  predicate RequestsInOrder(requests: seq<ServiceRequest>) {
    forall i, j :: 0 <= i < j < |requests| ==> requests[i].id < requests[j].id && requests[i].createdAt < requests[j].createdAt
  }

  predicate TestimonialsInOrder(ts: seq<Testimonial>) {
    forall i, j :: 0 <= i < j < |ts| ==> ts[i].id < ts[j].id && ts[i].createdAt < ts[j].createdAt
  }

  predicate GalleryInOrder(gallery: seq<GalleryItem>) {
    forall i, j :: 0 <= i < j < |gallery| ==> gallery[i].id < gallery[j].id && gallery[i].createdAt < gallery[j].createdAt
  }

  /** `email VARCHAR(255) UNIQUE NOT NULL`, `name VARCHAR(255) NOT NULL`, `phone VARCHAR(20)`. */
  predicate UsersValid(users: seq<User>, nextId: nat, clock: Instant) {
    && 1 <= nextId && UsersInOrder(users)
    && (forall u :: u in users ==>
          && 1 <= u.id < nextId && u.createdAt <= u.updatedAt < clock
          && |u.email| <= Schema.EmailMax && |u.name| <= Schema.UserNameMax
          && (u.phone.Some? ==> |u.phone.value| <= Schema.PhoneMax))
    && (forall i, j :: 0 <= i < j < |users| ==> users[i].email != users[j].email)
  }

  predicate ServicesValid(services: seq<Service>, nextId: nat, clock: Instant) {
    && 1 <= nextId && ServicesInOrder(services)
    && (forall s :: s in services ==>
          && 1 <= s.id < nextId && s.createdAt <= s.updatedAt < clock
          && |s.name| <= Schema.ServiceNameMax && FitsMoney(s.priceCents))
  }

  /** `status VARCHAR(50)`, and both foreign keys are NULL or name an existing row. */
  predicate RequestsValid(requests: seq<ServiceRequest>, nextId: nat, clock: Instant, users: seq<User>, services: seq<Service>) {
    && 1 <= nextId && RequestsInOrder(requests)
    && (forall q :: q in requests ==>
          && 1 <= q.id < nextId && q.createdAt <= q.updatedAt < clock
          && |q.status| <= Schema.StatusMax
          && (q.userId.Some? ==> UserById(users, q.userId.value).Some?)
          && (q.serviceId.Some? ==> ServiceById(services, q.serviceId.value).Some?))
  }

  /** `rating` satisfies the CHECK, and both foreign keys are NULL or name an existing row. */
  predicate TestimonialsValid(ts: seq<Testimonial>, nextId: nat, clock: Instant, users: seq<User>, services: seq<Service>) {
    && 1 <= nextId && TestimonialsInOrder(ts)
    && (forall t :: t in ts ==>
          && 1 <= t.id < nextId && t.createdAt < clock
          && Schema.RatingMin <= t.rating <= Schema.RatingMax
          && (t.userId.Some? ==> UserById(users, t.userId.value).Some?)
          && (t.serviceId.Some? ==> ServiceById(services, t.serviceId.value).Some?))
  }

  /** `title VARCHAR(255)`, `image_url VARCHAR(500)`, and the service is NULL or exists. */
  predicate GalleryValid(gallery: seq<GalleryItem>, nextId: nat, clock: Instant, services: seq<Service>) {
    && 1 <= nextId && GalleryInOrder(gallery)
    && (forall g :: g in gallery ==>
          && 1 <= g.id < nextId && g.createdAt < clock
          && |g.title| <= Schema.TitleMax && |g.imageUrl| <= Schema.ImageUrlMax
          && (g.serviceId.Some? ==> ServiceById(services, g.serviceId.value).Some?))
  }

  // ---------------------------------------------------------------------------
  // Constraint checks of the INSERT statements, in the order PostgreSQL applies
  // them: column type limits while the row is formed, then CHECK, then UNIQUE,
  // then the foreign keys in the order they were declared.

  /** The uniqueness of the email is checked on the value stored, after the cut. */
  function UserInsertError(users: seq<User>, email: string, name: string, phone: Option<string>): (r: Option<DbError>)
    ensures r.None? <==>
      && FitsVarchar(email, Schema.EmailMax) && FitsVarchar(name, Schema.UserNameMax)
      && (phone.Some? ==> FitsVarchar(phone.value, Schema.PhoneMax))
      && forall u :: u in users ==> u.email != Varchar(email, Schema.EmailMax)
  {
    if !FitsVarchar(email, Schema.EmailMax) then Some(ValueTooLong(Schema.EmailMax))
    else if !FitsVarchar(name, Schema.UserNameMax) then Some(ValueTooLong(Schema.UserNameMax))
    else if phone.Some? && !FitsVarchar(phone.value, Schema.PhoneMax) then Some(ValueTooLong(Schema.PhoneMax))
    else if UserByEmail(users, Varchar(email, Schema.EmailMax)).Some? then Some(UniqueViolation("users_email_key"))
    else None
  }

  function ServiceInsertError(name: string, priceCents: int): (r: Option<DbError>)
    ensures r.None? <==> FitsVarchar(name, Schema.ServiceNameMax) && FitsMoney(priceCents)
  {
    if !FitsVarchar(name, Schema.ServiceNameMax) then Some(ValueTooLong(Schema.ServiceNameMax))
    else if !FitsMoney(priceCents) then Some(NumericFieldOverflow)
    else None
  }

  function RequestInsertError(users: seq<User>, services: seq<Service>, userId: int, serviceId: int): (r: Option<DbError>)
    ensures r.None? <==> UserById(users, userId).Some? && ServiceById(services, serviceId).Some?
  {
    if UserById(users, userId).None? then Some(ForeignKeyViolation("service_requests_user_id_fkey"))
    else if ServiceById(services, serviceId).None? then Some(ForeignKeyViolation("service_requests_service_id_fkey"))
    else None
  }

  function TestimonialInsertError(users: seq<User>, services: seq<Service>, userId: int, serviceId: int, rating: int): (r: Option<DbError>)
    ensures r.None? <==>
      Schema.RatingMin <= rating <= Schema.RatingMax && UserById(users, userId).Some? && ServiceById(services, serviceId).Some?
    ensures !(Schema.RatingMin <= rating <= Schema.RatingMax) ==> r == Some(CheckViolation("testimonials_rating_check"))
  {
    if !(Schema.RatingMin <= rating <= Schema.RatingMax) then Some(CheckViolation("testimonials_rating_check"))
    else if UserById(users, userId).None? then Some(ForeignKeyViolation("testimonials_user_id_fkey"))
    else if ServiceById(services, serviceId).None? then Some(ForeignKeyViolation("testimonials_service_id_fkey"))
    else None
  }

  function GalleryInsertError(services: seq<Service>, title: string, imageUrl: string, serviceId: Option<int>): (r: Option<DbError>)
    ensures r.None? <==>
      FitsVarchar(title, Schema.TitleMax) && FitsVarchar(imageUrl, Schema.ImageUrlMax)
      && (serviceId.Some? ==> ServiceById(services, serviceId.value).Some?)
  {
    if !FitsVarchar(title, Schema.TitleMax) then Some(ValueTooLong(Schema.TitleMax))
    else if !FitsVarchar(imageUrl, Schema.ImageUrlMax) then Some(ValueTooLong(Schema.ImageUrlMax))
    else if serviceId.Some? && ServiceById(services, serviceId.value).None? then Some(ForeignKeyViolation("gallery_service_id_fkey"))
    else None
  }

  /** `createGalleryItem` passes `is_featured || false`: an omitted or false flag stores false. */
  function FeaturedFlag(isFeatured: Option<bool>): (r: bool)
    ensures r <==> isFeatured == Some(true)
  {
    match isFeatured
    case None => false
    case Some(b) => b || false
  }

  // ---------------------------------------------------------------------------
  // The two UPDATE statements, as functions of the table

  /** `UPDATE service_requests SET status = $1, updated_at = CURRENT_TIMESTAMP WHERE id = $2`. */
  function WithStatus(requests: seq<ServiceRequest>, id: int, status: string, now: Instant): (r: seq<ServiceRequest>)
    ensures |r| == |requests|
    ensures forall i :: 0 <= i < |r| && requests[i].id != id ==> r[i] == requests[i]
    ensures forall i :: 0 <= i < |r| && requests[i].id == id ==>
      r[i] == requests[i].(status := status, updatedAt := now)
  {
    if requests == [] then []
    else
      var q := requests[0];
      [if q.id == id then q.(status := status, updatedAt := now) else q] + WithStatus(requests[1..], id, status, now)
  }

  function RequestById(requests: seq<ServiceRequest>, id: int): (r: Option<ServiceRequest>)
    ensures r.Some? ==> r.value in requests && r.value.id == id
    ensures r.None? <==> forall q :: q in requests ==> q.id != id
  {
    if requests == [] then None
    else if requests[0].id == id then Some(requests[0])
    else RequestById(requests[1..], id)
  }

  /** The reply of the status UPDATE and the table it leaves. */
  datatype StatusUpdate = StatusUpdate(reply: Result<Option<ServiceRequest>, DbError>, requests: seq<ServiceRequest>)

  /**
   * `updateServiceRequestStatus`: a status that does not fit VARCHAR(50) is
   * rejected while the bound parameter is coerced, before any row is matched;
   * otherwise `rows[0]` is absent when no row has that id, and is the updated
   * row, with the status as stored, when one has.
   */
  function UpdateStatus(requests: seq<ServiceRequest>, id: int, status: string, now: Instant): (u: StatusUpdate)
    ensures !FitsVarchar(status, Schema.StatusMax) ==> u == StatusUpdate(Err(ValueTooLong(Schema.StatusMax)), requests)
    ensures FitsVarchar(status, Schema.StatusMax) && RequestById(requests, id).None? ==> u == StatusUpdate(Ok(None), requests)
    ensures FitsVarchar(status, Schema.StatusMax) && RequestById(requests, id).Some? ==>
      var stored := Varchar(status, Schema.StatusMax);
      && u.reply == Ok(Some(RequestById(requests, id).value.(status := stored, updatedAt := now)))
      && u.requests == WithStatus(requests, id, stored, now)
      && RequestById(u.requests, id) == u.reply.value
  {
    if !FitsVarchar(status, Schema.StatusMax) then StatusUpdate(Err(ValueTooLong(Schema.StatusMax)), requests)
    else
      var stored := Varchar(status, Schema.StatusMax);
      match RequestById(requests, id)
      case None => StatusUpdate(Ok(None), requests)
      case Some(q) =>
        RequestByIdWithStatus(requests, id, stored, now);
        StatusUpdate(Ok(Some(q.(status := stored, updatedAt := now))), WithStatus(requests, id, stored, now))
  }

  /** `UPDATE testimonials SET is_approved = true WHERE id = $1`. */
  function Approved(ts: seq<Testimonial>, id: int): (r: seq<Testimonial>)
    ensures |r| == |ts|
    ensures forall i :: 0 <= i < |r| && ts[i].id != id ==> r[i] == ts[i]
    ensures forall i :: 0 <= i < |r| && ts[i].id == id ==> r[i] == ts[i].(isApproved := true)
  {
    if ts == [] then []
    else
      var t := ts[0];
      [if t.id == id then t.(isApproved := true) else t] + Approved(ts[1..], id)
  }

  function TestimonialById(ts: seq<Testimonial>, id: int): (r: Option<Testimonial>)
    ensures r.Some? ==> r.value in ts && r.value.id == id
    ensures r.None? <==> forall t :: t in ts ==> t.id != id
  {
    if ts == [] then None
    else if ts[0].id == id then Some(ts[0])
    else TestimonialById(ts[1..], id)
  }

  // ---------------------------------------------------------------------------
  // The SELECT statements

  /** `getAllUsers`: `ORDER BY created_at DESC`. */
  function AllUsers(users: seq<User>): (r: seq<User>)
    ensures |r| == |users|
    ensures forall u :: u in r <==> u in users
    decreases |users|
  {
    if users == [] then []
    else
      var n := |users| - 1;
      assert users == users[..n] + [users[n]];
      [users[n]] + AllUsers(users[..n])
  }

  /** The services with `is_active = true`, in table order. */
  function ActiveOnly(services: seq<Service>): (r: seq<Service>)
    ensures forall s :: s in r <==> s in services && s.isActive
    ensures |r| <= |services|
  {
    if services == [] then []
    else (if services[0].isActive then [services[0]] else []) + ActiveOnly(services[1..])
  }

  /** Code-point lexicographic order on names. */
  predicate NameLe(a: string, b: string)
    decreases |a|
  {
    a == [] || (b != [] && (a[0] < b[0] || (a[0] == b[0] && NameLe(a[1..], b[1..]))))
  }

  lemma {:induction false} NameLeTotal(a: string, b: string)
    ensures NameLe(a, b) || NameLe(b, a)
    decreases |a|
  {
    if a != [] && b != [] && a[0] == b[0] {
      NameLeTotal(a[1..], b[1..]);
    }
  }

  lemma {:induction false} NameLeTransitive(a: string, b: string, c: string)
    requires NameLe(a, b) && NameLe(b, c)
    ensures NameLe(a, c)
    decreases |a|
  {
    if a != [] && a[0] == b[0] && b[0] == c[0] {
      NameLeTransitive(a[1..], b[1..], c[1..]);
    }
  }

  predicate SortedByName(s: seq<Service>) {
    forall i, j :: 0 <= i < j < |s| ==> NameLe(s[i].name, s[j].name)
  }

  lemma SortedCons(x: Service, s: seq<Service>)
    requires SortedByName(s)
    requires forall y :: y in s ==> NameLe(x.name, y.name)
    ensures SortedByName([x] + s)
  {
    var r := [x] + s;
    forall i, j | 0 <= i < j < |r| ensures NameLe(r[i].name, r[j].name) {
      assert r[j] == s[j - 1];
      if i > 0 { assert r[i] == s[i - 1]; }
    }
  }

  function InsertByName(x: Service, s: seq<Service>): seq<Service> {
    if s == [] then [x]
    else if NameLe(x.name, s[0].name) then [x] + s
    else [s[0]] + InsertByName(x, s[1..])
  }

  lemma {:induction false} InsertByNameMultiset(x: Service, s: seq<Service>)
    ensures multiset(InsertByName(x, s)) == multiset(s) + multiset{x}
  {
    if s != [] && !NameLe(x.name, s[0].name) {
      InsertByNameMultiset(x, s[1..]);
      assert s == [s[0]] + s[1..];
    }
  }

  lemma {:induction false} InsertByNameSorted(x: Service, s: seq<Service>)
    requires SortedByName(s)
    ensures SortedByName(InsertByName(x, s))
  {
    if s == [] {
    } else if NameLe(x.name, s[0].name) {
      forall y | y in s ensures NameLe(x.name, y.name) {
        var j :| 0 <= j < |s| && s[j] == y;
        if j > 0 { NameLeTransitive(x.name, s[0].name, s[j].name); }
      }
      SortedCons(x, s);
    } else {
      NameLeTotal(x.name, s[0].name);
      var rest := InsertByName(x, s[1..]);
      InsertByNameSorted(x, s[1..]);
      InsertByNameMultiset(x, s[1..]);
      forall y | y in rest ensures NameLe(s[0].name, y.name) {
        assert y in multiset(rest);
        if y != x {
          assert y in multiset(s[1..]);
          var j :| 0 <= j < |s[1..]| && s[1..][j] == y;
          assert s[j + 1] == y;
        }
      }
      SortedCons(s[0], rest);
    }
  }

  /** Insertion sort by name. */
  function SortByName(s: seq<Service>): seq<Service> {
    if s == [] then [] else InsertByName(s[0], SortByName(s[1..]))
  }

  lemma {:induction false} SortByNameSortsAndPermutes(s: seq<Service>)
    ensures SortedByName(SortByName(s))
    ensures multiset(SortByName(s)) == multiset(s)
  {
    if s != [] {
      SortByNameSortsAndPermutes(s[1..]);
      InsertByNameSorted(s[0], SortByName(s[1..]));
      InsertByNameMultiset(s[0], SortByName(s[1..]));
      assert s == [s[0]] + s[1..];
    }
  }

  /** `getAllServices`: `WHERE is_active = true ORDER BY name`. */
  function ActiveServices(services: seq<Service>): (r: seq<Service>)
    ensures SortedByName(r)
    ensures multiset(r) == multiset(ActiveOnly(services))
    ensures forall s :: s in r <==> s in services && s.isActive
  {
    var r := SortByName(ActiveOnly(services));
    SortByNameSortsAndPermutes(ActiveOnly(services));
    assert forall s :: s in r <==> s in multiset(ActiveOnly(services));
    r
  }

  /** The service columns a request row is joined with. */
  predicate JoinedService(services: seq<Service>, v: RequestWithService) {
    var s := ServiceOf(services, v.request.serviceId);
    s.Some? && v.serviceName == s.value.name && v.serviceDescription == s.value.description
    && v.servicePriceCents == s.value.priceCents
  }

  /** `getServiceRequestsByUser`: `JOIN services ... WHERE sr.user_id = $1 ORDER BY sr.created_at DESC`. */
  function RequestsOfUser(requests: seq<ServiceRequest>, services: seq<Service>, userId: int): (r: seq<RequestWithService>)
    ensures forall v :: v in r ==> v.request in requests && v.request.userId == Some(userId) && JoinedService(services, v)
    ensures forall q :: q in requests && q.userId == Some(userId) && ServiceOf(services, q.serviceId).Some? ==>
      exists v :: v in r && v.request == q
    decreases |requests|
  {
    if requests == [] then []
    else
      var n := |requests| - 1;
      var q := requests[n];
      assert requests == requests[..n] + [q];
      var rest := RequestsOfUser(requests[..n], services, userId);
      var s := ServiceOf(services, q.serviceId);
      if q.userId == Some(userId) && s.Some? then
        [RequestWithService(q, s.value.name, s.value.description, s.value.priceCents)] + rest
      else rest
  }

  /** Every request before the last one of a table in insertion order is older than it. */
  lemma EarlierRequestsOlder(requests: seq<ServiceRequest>)
    requires RequestsInOrder(requests) && requests != []
    ensures RequestsInOrder(requests[..|requests| - 1])
    ensures forall x :: x in requests[..|requests| - 1] ==> x.createdAt < requests[|requests| - 1].createdAt
  {
    var n := |requests| - 1;
    forall x | x in requests[..n] ensures x.createdAt < requests[n].createdAt {
      var k :| 0 <= k < n && requests[..n][k] == x;
      assert requests[k] == x;
    }
  }

  /** Request rows listed newest first. */
  predicate ServiceViewsNewestFirst(r: seq<RequestWithService>) {
    forall i, j :: 0 <= i < j < |r| ==> r[i].request.createdAt > r[j].request.createdAt
  }

  lemma ServiceViewsNewestFirstCons(head: RequestWithService, rest: seq<RequestWithService>)
    requires ServiceViewsNewestFirst(rest)
    requires forall v :: v in rest ==> v.request.createdAt < head.request.createdAt
    ensures ServiceViewsNewestFirst([head] + rest)
  {
    var r := [head] + rest;
    forall i, j | 0 <= i < j < |r| ensures r[i].request.createdAt > r[j].request.createdAt {
      assert r[j] == rest[j - 1] && rest[j - 1] in rest;
      if i > 0 { assert r[i] == rest[i - 1]; }
    }
  }

  /** A user's requests are listed newest first. */
  lemma {:induction false} RequestsOfUserNewestFirst(requests: seq<ServiceRequest>, services: seq<Service>, userId: int)
    requires RequestsInOrder(requests)
    ensures ServiceViewsNewestFirst(RequestsOfUser(requests, services, userId))
    decreases |requests|
  {
    if requests != [] {
      var n := |requests| - 1;
      var q := requests[n];
      EarlierRequestsOlder(requests);
      RequestsOfUserNewestFirst(requests[..n], services, userId);
      var rest := RequestsOfUser(requests[..n], services, userId);
      var s := ServiceOf(services, q.serviceId);
      if q.userId == Some(userId) && s.Some? {
        ServiceViewsNewestFirstCons(RequestWithService(q, s.value.name, s.value.description, s.value.priceCents), rest);
      }
    }
  }

  /** The user and service columns a request row is joined with. */
  predicate JoinedParties(users: seq<User>, services: seq<Service>, v: RequestWithParties) {
    var u := UserOf(users, v.request.userId);
    var s := ServiceOf(services, v.request.serviceId);
    u.Some? && s.Some? && v.userName == u.value.name && v.userEmail == u.value.email && v.serviceName == s.value.name
  }

  /** `getAllServiceRequests`: `JOIN users ... JOIN services ... ORDER BY sr.created_at DESC`. */
  function AllRequests(requests: seq<ServiceRequest>, users: seq<User>, services: seq<Service>): (r: seq<RequestWithParties>)
    ensures forall v :: v in r ==> v.request in requests && JoinedParties(users, services, v)
    ensures forall q :: q in requests && UserOf(users, q.userId).Some? && ServiceOf(services, q.serviceId).Some? ==>
      exists v :: v in r && v.request == q
    decreases |requests|
  {
    if requests == [] then []
    else
      var n := |requests| - 1;
      var q := requests[n];
      assert requests == requests[..n] + [q];
      var rest := AllRequests(requests[..n], users, services);
      var u := UserOf(users, q.userId);
      var s := ServiceOf(services, q.serviceId);
      if u.Some? && s.Some? then
        [RequestWithParties(q, u.value.name, u.value.email, s.value.name)] + rest
      else rest
  }

  /** Request rows with their parties listed newest first. */
  predicate PartyViewsNewestFirst(r: seq<RequestWithParties>) {
    forall i, j :: 0 <= i < j < |r| ==> r[i].request.createdAt > r[j].request.createdAt
  }

  lemma PartyViewsNewestFirstCons(head: RequestWithParties, rest: seq<RequestWithParties>)
    requires PartyViewsNewestFirst(rest)
    requires forall v :: v in rest ==> v.request.createdAt < head.request.createdAt
    ensures PartyViewsNewestFirst([head] + rest)
  {
    var r := [head] + rest;
    forall i, j | 0 <= i < j < |r| ensures r[i].request.createdAt > r[j].request.createdAt {
      assert r[j] == rest[j - 1] && rest[j - 1] in rest;
      if i > 0 { assert r[i] == rest[i - 1]; }
    }
  }

  /** All requests are listed newest first. */
  lemma {:induction false} AllRequestsNewestFirst(requests: seq<ServiceRequest>, users: seq<User>, services: seq<Service>)
    requires RequestsInOrder(requests)
    ensures PartyViewsNewestFirst(AllRequests(requests, users, services))
    decreases |requests|
  {
    if requests != [] {
      var n := |requests| - 1;
      var q := requests[n];
      EarlierRequestsOlder(requests);
      AllRequestsNewestFirst(requests[..n], users, services);
      var rest := AllRequests(requests[..n], users, services);
      var u := UserOf(users, q.userId);
      var s := ServiceOf(services, q.serviceId);
      if u.Some? && s.Some? {
        PartyViewsNewestFirstCons(RequestWithParties(q, u.value.name, u.value.email, s.value.name), rest);
      }
    }
  }

  /** The user and service columns a testimonial row is joined with. */
  predicate JoinedNames(users: seq<User>, services: seq<Service>, v: TestimonialWithNames) {
    var u := UserOf(users, v.testimonial.userId);
    var s := ServiceOf(services, v.testimonial.serviceId);
    u.Some? && s.Some? && v.userName == u.value.name && v.serviceName == s.value.name
  }

  /** `getApprovedTestimonials`: inner joins on users and services, `WHERE t.is_approved = true ORDER BY t.created_at DESC`. */
  function ApprovedTestimonials(ts: seq<Testimonial>, users: seq<User>, services: seq<Service>): (r: seq<TestimonialWithNames>)
    ensures forall v :: v in r ==> v.testimonial in ts && v.testimonial.isApproved && JoinedNames(users, services, v)
    ensures forall t :: t in ts && t.isApproved && UserOf(users, t.userId).Some? && ServiceOf(services, t.serviceId).Some? ==>
      exists v :: v in r && v.testimonial == t
    decreases |ts|
  {
    if ts == [] then []
    else
      var n := |ts| - 1;
      var t := ts[n];
      assert ts == ts[..n] + [t];
      var rest := ApprovedTestimonials(ts[..n], users, services);
      var u := UserOf(users, t.userId);
      var s := ServiceOf(services, t.serviceId);
      if t.isApproved && u.Some? && s.Some? then
        [TestimonialWithNames(t, u.value.name, s.value.name)] + rest
      else rest
  }

  /** Every testimonial before the last one of a table in insertion order is older than it. */
  lemma EarlierTestimonialsOlder(ts: seq<Testimonial>)
    requires TestimonialsInOrder(ts) && ts != []
    ensures TestimonialsInOrder(ts[..|ts| - 1])
    ensures forall x :: x in ts[..|ts| - 1] ==> x.createdAt < ts[|ts| - 1].createdAt
  {
    var n := |ts| - 1;
    forall x | x in ts[..n] ensures x.createdAt < ts[n].createdAt {
      var k :| 0 <= k < n && ts[..n][k] == x;
      assert ts[k] == x;
    }
  }

  /** Testimonial rows listed newest first. */
  predicate NamedViewsNewestFirst(r: seq<TestimonialWithNames>) {
    forall i, j :: 0 <= i < j < |r| ==> r[i].testimonial.createdAt > r[j].testimonial.createdAt
  }

  lemma NamedViewsNewestFirstCons(head: TestimonialWithNames, rest: seq<TestimonialWithNames>)
    requires NamedViewsNewestFirst(rest)
    requires forall v :: v in rest ==> v.testimonial.createdAt < head.testimonial.createdAt
    ensures NamedViewsNewestFirst([head] + rest)
  {
    var r := [head] + rest;
    forall i, j | 0 <= i < j < |r| ensures r[i].testimonial.createdAt > r[j].testimonial.createdAt {
      assert r[j] == rest[j - 1] && rest[j - 1] in rest;
      if i > 0 { assert r[i] == rest[i - 1]; }
    }
  }

  /** Approved testimonials are listed newest first. */
  lemma {:induction false} ApprovedTestimonialsNewestFirst(ts: seq<Testimonial>, users: seq<User>, services: seq<Service>)
    requires TestimonialsInOrder(ts)
    ensures NamedViewsNewestFirst(ApprovedTestimonials(ts, users, services))
    decreases |ts|
  {
    if ts != [] {
      var n := |ts| - 1;
      var t := ts[n];
      EarlierTestimonialsOlder(ts);
      ApprovedTestimonialsNewestFirst(ts[..n], users, services);
      var rest := ApprovedTestimonials(ts[..n], users, services);
      var u := UserOf(users, t.userId);
      var s := ServiceOf(services, t.serviceId);
      if t.isApproved && u.Some? && s.Some? {
        NamedViewsNewestFirstCons(TestimonialWithNames(t, u.value.name, s.value.name), rest);
      }
    }
  }

  /** `s.name as service_name` of a LEFT JOIN: NULL when there is no such service. */
  function ServiceNameOf(services: seq<Service>, fk: Option<int>): Option<string> {
    match ServiceOf(services, fk)
    case Some(s) => Some(s.name)
    case None => None
  }

  predicate ItemsNewestFirst(r: seq<GalleryWithService>) {
    forall i, j :: 0 <= i < j < |r| ==> r[i].item.createdAt > r[j].item.createdAt
  }

  /** The gallery rows whose `is_featured` equals `featured`, left-joined with services, newest first. */
  function GalleryNewestFirst(gallery: seq<GalleryItem>, services: seq<Service>, featured: bool): (r: seq<GalleryWithService>)
    ensures forall v :: v in r ==>
      v.item in gallery && v.item.isFeatured == featured && v.serviceName == ServiceNameOf(services, v.item.serviceId)
    ensures forall g :: g in gallery && g.isFeatured == featured ==> exists v :: v in r && v.item == g
    decreases |gallery|
  {
    if gallery == [] then []
    else
      var n := |gallery| - 1;
      var g := gallery[n];
      assert gallery == gallery[..n] + [g];
      var rest := GalleryNewestFirst(gallery[..n], services, featured);
      if g.isFeatured == featured then [GalleryWithService(g, ServiceNameOf(services, g.serviceId))] + rest
      else rest
  }

  lemma {:induction false} GalleryNewestFirstOrder(gallery: seq<GalleryItem>, services: seq<Service>, featured: bool)
    requires GalleryInOrder(gallery)
    ensures ItemsNewestFirst(GalleryNewestFirst(gallery, services, featured))
    decreases |gallery|
  {
    if gallery != [] {
      var n := |gallery| - 1;
      var g := gallery[n];
      EarlierGalleryOlder(gallery);
      GalleryNewestFirstOrder(gallery[..n], services, featured);
      var rest := GalleryNewestFirst(gallery[..n], services, featured);
      if g.isFeatured == featured {
        ItemsNewestFirstCons(GalleryWithService(g, ServiceNameOf(services, g.serviceId)), rest);
      }
    }
  }

  lemma EarlierGalleryOlder(gallery: seq<GalleryItem>)
    requires GalleryInOrder(gallery) && gallery != []
    ensures GalleryInOrder(gallery[..|gallery| - 1])
    ensures forall x :: x in gallery[..|gallery| - 1] ==> x.createdAt < gallery[|gallery| - 1].createdAt
  {
    var n := |gallery| - 1;
    forall x | x in gallery[..n] ensures x.createdAt < gallery[n].createdAt {
      var k :| 0 <= k < n && gallery[..n][k] == x;
      assert gallery[k] == x;
    }
  }

  lemma ItemsNewestFirstCons(head: GalleryWithService, rest: seq<GalleryWithService>)
    requires ItemsNewestFirst(rest)
    requires forall v :: v in rest ==> v.item.createdAt < head.item.createdAt
    ensures ItemsNewestFirst([head] + rest)
  {
    var r := [head] + rest;
    forall i, j | 0 <= i < j < |r| ensures r[i].item.createdAt > r[j].item.createdAt {
      assert r[j] == rest[j - 1] && rest[j - 1] in rest;
      if i > 0 { assert r[i] == rest[i - 1]; }
    }
  }

  /** `getAllGalleryItems`: LEFT JOIN services, `ORDER BY g.is_featured DESC, g.created_at DESC`. */
  function AllGalleryItems(gallery: seq<GalleryItem>, services: seq<Service>): (r: seq<GalleryWithService>)
    ensures forall v :: v in r ==> v.item in gallery && v.serviceName == ServiceNameOf(services, v.item.serviceId)
    ensures forall g :: g in gallery ==> exists v :: v in r && v.item == g
    ensures forall i, j :: 0 <= i < j < |r| && !r[i].item.isFeatured ==> !r[j].item.isFeatured
  {
    var featured := GalleryNewestFirst(gallery, services, true);
    var others := GalleryNewestFirst(gallery, services, false);
    var r := featured + others;
    forall i, j | 0 <= i < j < |r| && !r[i].item.isFeatured ensures !r[j].item.isFeatured {
      assert r[i] in featured || r[i] in others;
      assert i >= |featured|;
      assert r[j] == others[j - |featured|];
    }
    forall g | g in gallery ensures exists v :: v in r && v.item == g {
      var v :| v in GalleryNewestFirst(gallery, services, g.isFeatured) && v.item == g;
      assert v in r;
    }
    r
  }

  /** Rows with the same featured flag are listed newest first. */
  predicate GroupsNewestFirst(r: seq<GalleryWithService>) {
    forall i, j :: 0 <= i < j < |r| && r[i].item.isFeatured == r[j].item.isFeatured ==>
      r[i].item.createdAt > r[j].item.createdAt
  }

  /** Within the featured rows and within the others, `getAllGalleryItems` lists the newest first. */
  lemma AllGalleryItemsNewestFirst(gallery: seq<GalleryItem>, services: seq<Service>)
    requires GalleryInOrder(gallery)
    ensures GroupsNewestFirst(AllGalleryItems(gallery, services))
  {
    var featured := GalleryNewestFirst(gallery, services, true);
    var others := GalleryNewestFirst(gallery, services, false);
    GalleryNewestFirstOrder(gallery, services, true);
    GalleryNewestFirstOrder(gallery, services, false);
    assert AllGalleryItems(gallery, services) == featured + others;
    GroupsConcat(featured, others);
  }

  lemma GroupsConcat(featured: seq<GalleryWithService>, others: seq<GalleryWithService>)
    requires ItemsNewestFirst(featured) && ItemsNewestFirst(others)
    requires forall v :: v in featured ==> v.item.isFeatured
    requires forall v :: v in others ==> !v.item.isFeatured
    ensures GroupsNewestFirst(featured + others)
  {
    var r := featured + others;
    var f := |featured|;
    forall i, j | 0 <= i < j < |r| && r[i].item.isFeatured == r[j].item.isFeatured
      ensures r[i].item.createdAt > r[j].item.createdAt
    {
      assert r[i] == if i < f then featured[i] else others[i - f];
      assert r[j] == if j < f then featured[j] else others[j - f];
      assert f <= i || j < f by {
        assert i < f ==> featured[i] in featured;
        assert f <= j ==> others[j - f] in others;
      }
    }
  }

  /** `getFeaturedGalleryItems`: LEFT JOIN services, `WHERE g.is_featured = true ORDER BY g.created_at DESC`. */
  function FeaturedGalleryItems(gallery: seq<GalleryItem>, services: seq<Service>): (r: seq<GalleryWithService>)
    ensures forall v :: v in r ==>
      v.item in gallery && v.item.isFeatured && v.serviceName == ServiceNameOf(services, v.item.serviceId)
    ensures forall g :: g in gallery && g.isFeatured ==> exists v :: v in r && v.item == g
  {
    GalleryNewestFirst(gallery, services, true)
  }

  /** The featured rows come newest first. */
  lemma FeaturedGalleryItemsNewestFirst(gallery: seq<GalleryItem>, services: seq<Service>)
    requires GalleryInOrder(gallery)
    ensures ItemsNewestFirst(FeaturedGalleryItems(gallery, services))
  {
    GalleryNewestFirstOrder(gallery, services, true);
  }

  // ---------------------------------------------------------------------------
  // How the table invariants carry over when a statement adds or changes a row

  /** Adding a row keeps every key that named a user naming one. */
  lemma UsersGrow(users: seq<User>, u: User)
    ensures forall id :: UserById(users, id).Some? ==> UserById(users + [u], id).Some?
  {
    forall id | UserById(users, id).Some? ensures UserById(users + [u], id).Some? {
      assert UserById(users, id).value in users + [u];
    }
  }

  lemma ServicesGrow(services: seq<Service>, s: Service)
    ensures forall id :: ServiceById(services, id).Some? ==> ServiceById(services + [s], id).Some?
  {
    forall id | ServiceById(services, id).Some? ensures ServiceById(services + [s], id).Some? {
      assert ServiceById(services, id).value in services + [s];
    }
  }

  /** The tables that only reference users and services stay valid when those grow, the counter rises and time passes. */
  lemma RequestsValidWeaken(requests: seq<ServiceRequest>, n: nat, n': nat, c: Instant, c': Instant,
                            users: seq<User>, users': seq<User>, services: seq<Service>, services': seq<Service>)
    requires RequestsValid(requests, n, c, users, services) && n <= n' && c <= c'
    requires forall id :: UserById(users, id).Some? ==> UserById(users', id).Some?
    requires forall id :: ServiceById(services, id).Some? ==> ServiceById(services', id).Some?
    ensures RequestsValid(requests, n', c', users', services')
  {
  }

  lemma TestimonialsValidWeaken(ts: seq<Testimonial>, n: nat, n': nat, c: Instant, c': Instant,
                                users: seq<User>, users': seq<User>, services: seq<Service>, services': seq<Service>)
    requires TestimonialsValid(ts, n, c, users, services) && n <= n' && c <= c'
    requires forall id :: UserById(users, id).Some? ==> UserById(users', id).Some?
    requires forall id :: ServiceById(services, id).Some? ==> ServiceById(services', id).Some?
    ensures TestimonialsValid(ts, n', c', users', services')
  {
  }

  lemma GalleryValidWeaken(gallery: seq<GalleryItem>, n: nat, n': nat, c: Instant, c': Instant,
                           services: seq<Service>, services': seq<Service>)
    requires GalleryValid(gallery, n, c, services) && n <= n' && c <= c'
    requires forall id :: ServiceById(services, id).Some? ==> ServiceById(services', id).Some?
    ensures GalleryValid(gallery, n', c', services')
  {
  }

  lemma UsersValidWeaken(users: seq<User>, n: nat, n': nat, c: Instant, c': Instant)
    requires UsersValid(users, n, c) && n <= n' && c <= c'
    ensures UsersValid(users, n', c')
  {
  }

  lemma ServicesValidWeaken(services: seq<Service>, n: nat, n': nat, c: Instant, c': Instant)
    requires ServicesValid(services, n, c) && n <= n' && c <= c'
    ensures ServicesValid(services, n', c')
  {
  }

  /** A user row as stored: its strings within their limits and its email not taken yet. */
  predicate UserRowFits(users: seq<User>, u: User) {
    && |u.email| <= Schema.EmailMax && |u.name| <= Schema.UserNameMax
    && (u.phone.Some? ==> |u.phone.value| <= Schema.PhoneMax)
    && forall v :: v in users ==> v.email != u.email
  }

  /** A service row as stored: its name within VARCHAR(255) and its price within DECIMAL(10, 2). */
  predicate ServiceRowFits(x: Service) {
    |x.name| <= Schema.ServiceNameMax && FitsMoney(x.priceCents)
  }

  /** A gallery row as stored: title and URL within their limits and the service NULL or existing. */
  predicate GalleryRowFits(services: seq<Service>, g: GalleryItem) {
    && |g.title| <= Schema.TitleMax && |g.imageUrl| <= Schema.ImageUrlMax
    && (g.serviceId.Some? ==> ServiceById(services, g.serviceId.value).Some?)
  }

  /** A row that passed the INSERT checks, with the next id and the current time, keeps `users` valid. */
  lemma UsersValidAppend(users: seq<User>, n: nat, c: Instant, u: User)
    requires UsersValid(users, n, c)
    requires u.id == n >= 1 && u.createdAt == u.updatedAt == c
    requires UserRowFits(users, u)
    ensures UsersValid(users + [u], n + 1, c + 1)
  {
    var r := users + [u];
    forall i, j | 0 <= i < j < |r| ensures r[i].id < r[j].id && r[i].createdAt < r[j].createdAt && r[i].email != r[j].email {
      assert r[i] in users;
      if j < |users| { assert r[j] == users[j]; }
    }
  }

  /** The invariant of a store, over the values of its fields. */
  predicate StoreValid(users: seq<User>, services: seq<Service>, requests: seq<ServiceRequest>,
                       testimonials: seq<Testimonial>, gallery: seq<GalleryItem>,
                       nextUserId: nat, nextServiceId: nat, nextRequestId: nat, nextTestimonialId: nat,
                       nextGalleryId: nat, clock: Instant)
  {
    && UsersValid(users, nextUserId, clock)
    && ServicesValid(services, nextServiceId, clock)
    && RequestsValid(requests, nextRequestId, clock, users, services)
    && TestimonialsValid(testimonials, nextTestimonialId, clock, users, services)
    && GalleryValid(gallery, nextGalleryId, clock, services)
  }

  /** `createUser` keeps the store valid, whether the INSERT succeeds or fails. */
  lemma CreateUserValid(users: seq<User>, services: seq<Service>, requests: seq<ServiceRequest>,
                        testimonials: seq<Testimonial>, gallery: seq<GalleryItem>,
                        nU: nat, nS: nat, nR: nat, nT: nat, nG: nat, c: Instant, u: User)
    requires StoreValid(users, services, requests, testimonials, gallery, nU, nS, nR, nT, nG, c)
    ensures StoreValid(users, services, requests, testimonials, gallery, nU + 1, nS, nR, nT, nG, c + 1)
    ensures u.id == nU && u.createdAt == u.updatedAt == c && UserRowFits(users, u) ==>
      StoreValid(users + [u], services, requests, testimonials, gallery, nU + 1, nS, nR, nT, nG, c + 1)
  {
    UsersValidWeaken(users, nU, nU + 1, c, c + 1);
    ServicesValidWeaken(services, nS, nS, c, c + 1);
    RequestsValidWeaken(requests, nR, nR, c, c + 1, users, users, services, services);
    TestimonialsValidWeaken(testimonials, nT, nT, c, c + 1, users, users, services, services);
    GalleryValidWeaken(gallery, nG, nG, c, c + 1, services, services);
    if u.id == nU && u.createdAt == u.updatedAt == c && UserRowFits(users, u) {
      UsersValidAppend(users, nU, c, u);
      UsersGrow(users, u);
      RequestsValidWeaken(requests, nR, nR, c, c + 1, users, users + [u], services, services);
      TestimonialsValidWeaken(testimonials, nT, nT, c, c + 1, users, users + [u], services, services);
    }
  }

  lemma ServicesValidAppend(services: seq<Service>, n: nat, c: Instant, x: Service)
    requires ServicesValid(services, n, c)
    requires x.id == n && x.createdAt == x.updatedAt == c && ServiceRowFits(x)
    ensures ServicesValid(services + [x], n + 1, c + 1)
  {
    var r := services + [x];
    forall i, j | 0 <= i < j < |r| ensures r[i].id < r[j].id && r[i].createdAt < r[j].createdAt {
      assert r[i] in services;
      if j < |services| { assert r[j] == services[j]; }
    }
  }

  lemma RequestsValidAppend(requests: seq<ServiceRequest>, n: nat, c: Instant, users: seq<User>, services: seq<Service>, q: ServiceRequest)
    requires RequestsValid(requests, n, c, users, services)
    requires q.id == n && q.createdAt == q.updatedAt == c && |q.status| <= Schema.StatusMax
    requires q.userId.Some? && q.serviceId.Some? && RequestInsertError(users, services, q.userId.value, q.serviceId.value).None?
    ensures RequestsValid(requests + [q], n + 1, c + 1, users, services)
  {
    var r := requests + [q];
    forall i, j | 0 <= i < j < |r| ensures r[i].id < r[j].id && r[i].createdAt < r[j].createdAt {
      assert r[i] in requests;
      if j < |requests| { assert r[j] == requests[j]; }
    }
  }

  lemma TestimonialsValidAppend(ts: seq<Testimonial>, n: nat, c: Instant, users: seq<User>, services: seq<Service>, t: Testimonial)
    requires TestimonialsValid(ts, n, c, users, services)
    requires t.id == n && t.createdAt == c
    requires t.userId.Some? && t.serviceId.Some? && TestimonialInsertError(users, services, t.userId.value, t.serviceId.value, t.rating).None?
    ensures TestimonialsValid(ts + [t], n + 1, c + 1, users, services)
  {
    var r := ts + [t];
    forall i, j | 0 <= i < j < |r| ensures r[i].id < r[j].id && r[i].createdAt < r[j].createdAt {
      assert r[i] in ts;
      if j < |ts| { assert r[j] == ts[j]; }
    }
  }

  lemma GalleryValidAppend(gallery: seq<GalleryItem>, n: nat, c: Instant, services: seq<Service>, g: GalleryItem)
    requires GalleryValid(gallery, n, c, services)
    requires g.id == n && g.createdAt == c && GalleryRowFits(services, g)
    ensures GalleryValid(gallery + [g], n + 1, c + 1, services)
  {
    var r := gallery + [g];
    forall i, j | 0 <= i < j < |r| ensures r[i].id < r[j].id && r[i].createdAt < r[j].createdAt {
      assert r[i] in gallery;
      if j < |gallery| { assert r[j] == gallery[j]; }
    }
  }

  /** The status update changes no id and no creation time, so the request table stays valid. */
  lemma RequestsValidWithStatus(requests: seq<ServiceRequest>, n: nat, c: Instant, users: seq<User>, services: seq<Service>,
                                id: int, status: string)
    requires RequestsValid(requests, n, c, users, services) && |status| <= Schema.StatusMax
    ensures RequestsValid(WithStatus(requests, id, status, c), n, c + 1, users, services)
  {
    var r := WithStatus(requests, id, status, c);
    forall q | q in r ensures 1 <= q.id < n && q.createdAt <= q.updatedAt < c + 1 && |q.status| <= Schema.StatusMax
      && (q.userId.Some? ==> UserById(users, q.userId.value).Some?)
      && (q.serviceId.Some? ==> ServiceById(services, q.serviceId.value).Some?)
    {
      var k :| 0 <= k < |r| && r[k] == q;
      assert requests[k] in requests;
    }
  }

  lemma TestimonialsValidApproved(ts: seq<Testimonial>, n: nat, c: Instant, users: seq<User>, services: seq<Service>, id: int)
    requires TestimonialsValid(ts, n, c, users, services)
    ensures TestimonialsValid(Approved(ts, id), n, c + 1, users, services)
  {
    var r := Approved(ts, id);
    forall t | t in r ensures 1 <= t.id < n && t.createdAt < c + 1 && Schema.RatingMin <= t.rating <= Schema.RatingMax
      && (t.userId.Some? ==> UserById(users, t.userId.value).Some?)
      && (t.serviceId.Some? ==> ServiceById(services, t.serviceId.value).Some?)
    {
      var k :| 0 <= k < |r| && r[k] == t;
      assert ts[k] in ts;
    }
  }

  /** `createService` keeps the store valid, whether the INSERT succeeds or fails. */
  lemma CreateServiceValid(users: seq<User>, services: seq<Service>, requests: seq<ServiceRequest>,
                           testimonials: seq<Testimonial>, gallery: seq<GalleryItem>,
                           nU: nat, nS: nat, nR: nat, nT: nat, nG: nat, c: Instant, x: Service)
    requires StoreValid(users, services, requests, testimonials, gallery, nU, nS, nR, nT, nG, c)
    ensures StoreValid(users, services, requests, testimonials, gallery, nU, nS + 1, nR, nT, nG, c + 1)
    ensures x.id == nS && x.createdAt == x.updatedAt == c && ServiceRowFits(x) ==>
      StoreValid(users, services + [x], requests, testimonials, gallery, nU, nS + 1, nR, nT, nG, c + 1)
  {
    UsersValidWeaken(users, nU, nU, c, c + 1);
    ServicesValidWeaken(services, nS, nS + 1, c, c + 1);
    RequestsValidWeaken(requests, nR, nR, c, c + 1, users, users, services, services);
    TestimonialsValidWeaken(testimonials, nT, nT, c, c + 1, users, users, services, services);
    GalleryValidWeaken(gallery, nG, nG, c, c + 1, services, services);
    if x.id == nS && x.createdAt == x.updatedAt == c && ServiceRowFits(x) {
      ServicesValidAppend(services, nS, c, x);
      ServicesGrow(services, x);
      RequestsValidWeaken(requests, nR, nR, c, c + 1, users, users, services, services + [x]);
      TestimonialsValidWeaken(testimonials, nT, nT, c, c + 1, users, users, services, services + [x]);
      GalleryValidWeaken(gallery, nG, nG, c, c + 1, services, services + [x]);
    }
  }

  /** `createServiceRequest` keeps the store valid, whether the INSERT succeeds or fails. */
  lemma CreateRequestValid(users: seq<User>, services: seq<Service>, requests: seq<ServiceRequest>,
                           testimonials: seq<Testimonial>, gallery: seq<GalleryItem>,
                           nU: nat, nS: nat, nR: nat, nT: nat, nG: nat, c: Instant, q: ServiceRequest)
    requires StoreValid(users, services, requests, testimonials, gallery, nU, nS, nR, nT, nG, c)
    ensures StoreValid(users, services, requests, testimonials, gallery, nU, nS, nR + 1, nT, nG, c + 1)
    ensures (q.id == nR && q.createdAt == q.updatedAt == c && |q.status| <= Schema.StatusMax
      && q.userId.Some? && q.serviceId.Some? && RequestInsertError(users, services, q.userId.value, q.serviceId.value).None?) ==>
      StoreValid(users, services, requests + [q], testimonials, gallery, nU, nS, nR + 1, nT, nG, c + 1)
  {
    UsersValidWeaken(users, nU, nU, c, c + 1);
    ServicesValidWeaken(services, nS, nS, c, c + 1);
    RequestsValidWeaken(requests, nR, nR + 1, c, c + 1, users, users, services, services);
    TestimonialsValidWeaken(testimonials, nT, nT, c, c + 1, users, users, services, services);
    GalleryValidWeaken(gallery, nG, nG, c, c + 1, services, services);
    if q.id == nR && q.createdAt == q.updatedAt == c && |q.status| <= Schema.StatusMax
      && q.userId.Some? && q.serviceId.Some? && RequestInsertError(users, services, q.userId.value, q.serviceId.value).None? {
      RequestsValidAppend(requests, nR, c, users, services, q);
    }
  }

  /** `createTestimonial` keeps the store valid, whether the INSERT succeeds or fails. */
  lemma CreateTestimonialValid(users: seq<User>, services: seq<Service>, requests: seq<ServiceRequest>,
                               testimonials: seq<Testimonial>, gallery: seq<GalleryItem>,
                               nU: nat, nS: nat, nR: nat, nT: nat, nG: nat, c: Instant, t: Testimonial)
    requires StoreValid(users, services, requests, testimonials, gallery, nU, nS, nR, nT, nG, c)
    ensures StoreValid(users, services, requests, testimonials, gallery, nU, nS, nR, nT + 1, nG, c + 1)
    ensures (t.id == nT && t.createdAt == c && t.userId.Some? && t.serviceId.Some?
      && TestimonialInsertError(users, services, t.userId.value, t.serviceId.value, t.rating).None?) ==>
      StoreValid(users, services, requests, testimonials + [t], gallery, nU, nS, nR, nT + 1, nG, c + 1)
  {
    UsersValidWeaken(users, nU, nU, c, c + 1);
    ServicesValidWeaken(services, nS, nS, c, c + 1);
    RequestsValidWeaken(requests, nR, nR, c, c + 1, users, users, services, services);
    TestimonialsValidWeaken(testimonials, nT, nT + 1, c, c + 1, users, users, services, services);
    GalleryValidWeaken(gallery, nG, nG, c, c + 1, services, services);
    if t.id == nT && t.createdAt == c && t.userId.Some? && t.serviceId.Some?
      && TestimonialInsertError(users, services, t.userId.value, t.serviceId.value, t.rating).None? {
      TestimonialsValidAppend(testimonials, nT, c, users, services, t);
    }
  }

  /** `createGalleryItem` keeps the store valid, whether the INSERT succeeds or fails. */
  lemma CreateGalleryItemValid(users: seq<User>, services: seq<Service>, requests: seq<ServiceRequest>,
                               testimonials: seq<Testimonial>, gallery: seq<GalleryItem>,
                               nU: nat, nS: nat, nR: nat, nT: nat, nG: nat, c: Instant, g: GalleryItem)
    requires StoreValid(users, services, requests, testimonials, gallery, nU, nS, nR, nT, nG, c)
    ensures StoreValid(users, services, requests, testimonials, gallery, nU, nS, nR, nT, nG + 1, c + 1)
    ensures g.id == nG && g.createdAt == c && GalleryRowFits(services, g) ==>
      StoreValid(users, services, requests, testimonials, gallery + [g], nU, nS, nR, nT, nG + 1, c + 1)
  {
    UsersValidWeaken(users, nU, nU, c, c + 1);
    ServicesValidWeaken(services, nS, nS, c, c + 1);
    RequestsValidWeaken(requests, nR, nR, c, c + 1, users, users, services, services);
    TestimonialsValidWeaken(testimonials, nT, nT, c, c + 1, users, users, services, services);
    GalleryValidWeaken(gallery, nG, nG + 1, c, c + 1, services, services);
    if g.id == nG && g.createdAt == c && GalleryRowFits(services, g) {
      GalleryValidAppend(gallery, nG, c, services, g);
    }
  }

  /** A statement that changes no row keeps the store valid as the clock moves on. */
  lemma TickValid(users: seq<User>, services: seq<Service>, requests: seq<ServiceRequest>,
                  testimonials: seq<Testimonial>, gallery: seq<GalleryItem>,
                  nU: nat, nS: nat, nR: nat, nT: nat, nG: nat, c: Instant)
    requires StoreValid(users, services, requests, testimonials, gallery, nU, nS, nR, nT, nG, c)
    ensures StoreValid(users, services, requests, testimonials, gallery, nU, nS, nR, nT, nG, c + 1)
  {
    UsersValidWeaken(users, nU, nU, c, c + 1);
    ServicesValidWeaken(services, nS, nS, c, c + 1);
    RequestsValidWeaken(requests, nR, nR, c, c + 1, users, users, services, services);
    TestimonialsValidWeaken(testimonials, nT, nT, c, c + 1, users, users, services, services);
    GalleryValidWeaken(gallery, nG, nG, c, c + 1, services, services);
  }

  /** The status UPDATE keeps the store valid when the new status fits. */
  lemma WithStatusValid(users: seq<User>, services: seq<Service>, requests: seq<ServiceRequest>,
                        testimonials: seq<Testimonial>, gallery: seq<GalleryItem>,
                        nU: nat, nS: nat, nR: nat, nT: nat, nG: nat, c: Instant, id: int, status: string)
    requires StoreValid(users, services, requests, testimonials, gallery, nU, nS, nR, nT, nG, c)
    requires |status| <= Schema.StatusMax
    ensures StoreValid(users, services, WithStatus(requests, id, status, c), testimonials, gallery, nU, nS, nR, nT, nG, c + 1)
  {
    TickValid(users, services, requests, testimonials, gallery, nU, nS, nR, nT, nG, c);
    RequestsValidWithStatus(requests, nR, c, users, services, id, status);
  }

  /** Approval keeps the store valid. */
  lemma ApprovedValid(users: seq<User>, services: seq<Service>, requests: seq<ServiceRequest>,
                      testimonials: seq<Testimonial>, gallery: seq<GalleryItem>,
                      nU: nat, nS: nat, nR: nat, nT: nat, nG: nat, c: Instant, id: int)
    requires StoreValid(users, services, requests, testimonials, gallery, nU, nS, nR, nT, nG, c)
    ensures StoreValid(users, services, requests, Approved(testimonials, id), gallery, nU, nS, nR, nT, nG, c + 1)
  {
    TickValid(users, services, requests, testimonials, gallery, nU, nS, nR, nT, nG, c);
    TestimonialsValidApproved(testimonials, nT, c, users, services, id);
  }

  /**
   * The store: one sequence of rows per table, the next value of each SERIAL
   * sequence, and the clock CURRENT_TIMESTAMP reads. Each write statement
   * advances the clock by one.
   */
  class Store {
    var users: seq<User>
    var services: seq<Service>
    var requests: seq<ServiceRequest>
    var testimonials: seq<Testimonial>
    var gallery: seq<GalleryItem>
    var nextUserId: nat
    var nextServiceId: nat
    var nextRequestId: nat
    var nextTestimonialId: nat
    var nextGalleryId: nat
    var clock: Instant

    /** Every constraint of the schema holds, and the rows are in insertion order. */
    predicate Valid()
      reads this
    {
      StoreValid(users, services, requests, testimonials, gallery,
                 nextUserId, nextServiceId, nextRequestId, nextTestimonialId, nextGalleryId, clock)
    }

    /** Freshly created tables: empty, every sequence at 1. */
    constructor ()
      ensures Valid()
      ensures users == [] && services == [] && requests == [] && testimonials == [] && gallery == []
      ensures nextUserId == 1 && nextServiceId == 1 && nextRequestId == 1 && nextTestimonialId == 1 && nextGalleryId == 1
      ensures clock == 0
    {
      users, services, requests, testimonials, gallery := [], [], [], [], [];
      nextUserId, nextServiceId, nextRequestId, nextTestimonialId, nextGalleryId := 1, 1, 1, 1, 1;
      clock := 0;
    }

    /** `createUser`: INSERT INTO users ... RETURNING *. */
    method CreateUser(email: string, name: string, phone: Option<string>) returns (r: Result<User, DbError>)
      requires Valid()
      modifies this
      ensures Valid()
      ensures nextUserId == old(nextUserId) + IdsDrawn(UserInsertError(old(users), email, name, phone))
      ensures clock == old(clock) + 1
      ensures UserInsertError(old(users), email, name, phone).Some? ==>
        r == Err(UserInsertError(old(users), email, name, phone).value) && users == old(users)
      ensures UserInsertError(old(users), email, name, phone).None? ==>
        && r == Ok(User(old(nextUserId), Varchar(email, Schema.EmailMax), Varchar(name, Schema.UserNameMax),
                        VarcharOrNull(phone, Schema.PhoneMax), old(clock), old(clock)))
        && users == old(users) + [r.value]
      ensures r.Ok? ==> UserByEmail(users, r.value.email) == Some(r.value)
      ensures services == old(services) && requests == old(requests) && testimonials == old(testimonials) && gallery == old(gallery)
      ensures nextServiceId == old(nextServiceId) && nextRequestId == old(nextRequestId)
      ensures nextTestimonialId == old(nextTestimonialId) && nextGalleryId == old(nextGalleryId)
    {
      var u := User(nextUserId, Varchar(email, Schema.EmailMax), Varchar(name, Schema.UserNameMax),
                    VarcharOrNull(phone, Schema.PhoneMax), clock, clock);
      CreateUserValid(users, services, requests, testimonials, gallery,
                      nextUserId, nextServiceId, nextRequestId, nextTestimonialId, nextGalleryId, clock, u);
      TickValid(users, services, requests, testimonials, gallery,
                nextUserId, nextServiceId, nextRequestId, nextTestimonialId, nextGalleryId, clock);
      var err := UserInsertError(users, email, name, phone);
      if err.Some? {
        r := Err(err.value);
      } else {
        UserByEmailAppend(users, u);
        users := users + [u];
        r := Ok(u);
      }
      nextUserId := nextUserId + IdsDrawn(err);
      clock := clock + 1;
    }

    /** `createService`: the row takes the default `is_active = true`. */
    method CreateService(name: string, description: string, priceCents: int, durationHours: int)
      returns (r: Result<Service, DbError>)
      requires Valid()
      modifies this
      ensures Valid()
      ensures nextServiceId == old(nextServiceId) + IdsDrawn(ServiceInsertError(name, priceCents))
      ensures clock == old(clock) + 1
      ensures ServiceInsertError(name, priceCents).Some? ==>
        r == Err(ServiceInsertError(name, priceCents).value) && services == old(services)
      ensures ServiceInsertError(name, priceCents).None? ==>
        && r == Ok(Service(old(nextServiceId), Varchar(name, Schema.ServiceNameMax), description, priceCents, durationHours,
                           Schema.DefaultIsActive, old(clock), old(clock)))
        && services == old(services) + [r.value]
      ensures r.Ok? ==> ServiceById(services, r.value.id) == Some(r.value)
      ensures users == old(users) && requests == old(requests) && testimonials == old(testimonials) && gallery == old(gallery)
      ensures nextUserId == old(nextUserId) && nextRequestId == old(nextRequestId)
      ensures nextTestimonialId == old(nextTestimonialId) && nextGalleryId == old(nextGalleryId)
    {
      var x := Service(nextServiceId, Varchar(name, Schema.ServiceNameMax), description, priceCents, durationHours,
                       Schema.DefaultIsActive, clock, clock);
      CreateServiceValid(users, services, requests, testimonials, gallery,
                         nextUserId, nextServiceId, nextRequestId, nextTestimonialId, nextGalleryId, clock, x);
      TickValid(users, services, requests, testimonials, gallery,
                nextUserId, nextServiceId, nextRequestId, nextTestimonialId, nextGalleryId, clock);
      var err := ServiceInsertError(name, priceCents);
      if err.Some? {
        r := Err(err.value);
      } else {
        ServiceByIdAppend(services, x);
        services := services + [x];
        r := Ok(x);
      }
      nextServiceId := nextServiceId + IdsDrawn(err);
      clock := clock + 1;
    }

    /**
     * The seed INSERT with `ON CONFLICT (name) DO NOTHING`, over a `services`
     * table whose name is unique: a stored name makes it a no-op that still
     * draws its id. Returns the new row, or nothing when the name was taken.
     */
    method CreateServiceUnlessNamed(name: string, description: string, priceCents: int, durationHours: int)
      returns (r: Result<Option<Service>, DbError>)
      requires Valid()
      modifies this
      ensures Valid()
      ensures nextServiceId == old(nextServiceId) + IdsDrawn(ServiceInsertError(name, priceCents))
      ensures clock == old(clock) + 1
      ensures ServiceInsertError(name, priceCents).Some? ==>
        r == Err(ServiceInsertError(name, priceCents).value) && services == old(services)
      ensures ServiceInsertError(name, priceCents).None? && ServiceNamed(old(services), Varchar(name, Schema.ServiceNameMax)) ==>
        r == Ok(None) && services == old(services)
      ensures ServiceInsertError(name, priceCents).None? && !ServiceNamed(old(services), Varchar(name, Schema.ServiceNameMax)) ==>
        && r == Ok(Some(Service(old(nextServiceId), Varchar(name, Schema.ServiceNameMax), description, priceCents, durationHours,
                                Schema.DefaultIsActive, old(clock), old(clock))))
        && services == old(services) + [r.value.value]
      ensures users == old(users) && requests == old(requests) && testimonials == old(testimonials) && gallery == old(gallery)
      ensures nextUserId == old(nextUserId) && nextRequestId == old(nextRequestId)
      ensures nextTestimonialId == old(nextTestimonialId) && nextGalleryId == old(nextGalleryId)
    {
      if ServiceInsertError(name, priceCents).None? && ServiceNamed(services, Varchar(name, Schema.ServiceNameMax)) {
        TickValid(users, services, requests, testimonials, gallery,
                  nextUserId, nextServiceId, nextRequestId, nextTestimonialId, nextGalleryId, clock);
        nextServiceId := nextServiceId + 1;
        clock := clock + 1;
        r := Ok(None);
      } else {
        var inserted := CreateService(name, description, priceCents, durationHours);
        r := if inserted.Ok? then Ok(Some(inserted.value)) else Err(inserted.error);
      }
    }

    /** `createServiceRequest`: status takes its default "pending", the estimated cost stays NULL. */
    method CreateServiceRequest(userId: int, serviceId: int, scheduledDate: Option<Instant>, address: string, notes: Option<string>)
      returns (r: Result<ServiceRequest, DbError>)
      requires Valid()
      modifies this
      ensures Valid()
      ensures nextRequestId == old(nextRequestId) + 1 && clock == old(clock) + 1
      ensures RequestInsertError(users, services, userId, serviceId).Some? ==>
        r == Err(RequestInsertError(users, services, userId, serviceId).value) && requests == old(requests)
      ensures RequestInsertError(users, services, userId, serviceId).None? ==>
        && r == Ok(ServiceRequest(old(nextRequestId), Some(userId), Some(serviceId), Schema.DefaultStatus, scheduledDate,
                                  address, notes, None, old(clock), old(clock)))
        && requests == old(requests) + [r.value]
      ensures users == old(users) && services == old(services) && testimonials == old(testimonials) && gallery == old(gallery)
      ensures nextUserId == old(nextUserId) && nextServiceId == old(nextServiceId)
      ensures nextTestimonialId == old(nextTestimonialId) && nextGalleryId == old(nextGalleryId)
    {
      var q := ServiceRequest(nextRequestId, Some(userId), Some(serviceId), Schema.DefaultStatus, scheduledDate,
                              address, notes, None, clock, clock);
      CreateRequestValid(users, services, requests, testimonials, gallery,
                         nextUserId, nextServiceId, nextRequestId, nextTestimonialId, nextGalleryId, clock, q);
      var err := RequestInsertError(users, services, userId, serviceId);
      if err.Some? {
        r := Err(err.value);
      } else {
        requests := requests + [q];
        r := Ok(q);
      }
      nextRequestId := nextRequestId + 1;
      clock := clock + 1;
    }

    /** `createTestimonial`: the row starts unapproved. */
    method CreateTestimonial(userId: int, serviceId: int, rating: int, comment: string)
      returns (r: Result<Testimonial, DbError>)
      requires Valid()
      modifies this
      ensures Valid()
      ensures nextTestimonialId == old(nextTestimonialId) + 1 && clock == old(clock) + 1
      ensures TestimonialInsertError(users, services, userId, serviceId, rating).Some? ==>
        r == Err(TestimonialInsertError(users, services, userId, serviceId, rating).value) && testimonials == old(testimonials)
      ensures TestimonialInsertError(users, services, userId, serviceId, rating).None? ==>
        && r == Ok(Testimonial(old(nextTestimonialId), Some(userId), Some(serviceId), rating, comment,
                               Schema.DefaultIsApproved, old(clock)))
        && testimonials == old(testimonials) + [r.value]
      ensures users == old(users) && services == old(services) && requests == old(requests) && gallery == old(gallery)
      ensures nextUserId == old(nextUserId) && nextServiceId == old(nextServiceId)
      ensures nextRequestId == old(nextRequestId) && nextGalleryId == old(nextGalleryId)
    {
      var t := Testimonial(nextTestimonialId, Some(userId), Some(serviceId), rating, comment, Schema.DefaultIsApproved, clock);
      CreateTestimonialValid(users, services, requests, testimonials, gallery,
                             nextUserId, nextServiceId, nextRequestId, nextTestimonialId, nextGalleryId, clock, t);
      var err := TestimonialInsertError(users, services, userId, serviceId, rating);
      if err.Some? {
        r := Err(err.value);
      } else {
        testimonials := testimonials + [t];
        r := Ok(t);
      }
      nextTestimonialId := nextTestimonialId + 1;
      clock := clock + 1;
    }

    /** `createGalleryItem`: an omitted `is_featured` is stored as false. */
    method CreateGalleryItem(title: string, description: string, imageUrl: string, serviceId: Option<int>, isFeatured: Option<bool>)
      returns (r: Result<GalleryItem, DbError>)
      requires Valid()
      modifies this
      ensures Valid()
      ensures nextGalleryId == old(nextGalleryId) + IdsDrawn(GalleryInsertError(services, title, imageUrl, serviceId))
      ensures clock == old(clock) + 1
      ensures GalleryInsertError(services, title, imageUrl, serviceId).Some? ==>
        r == Err(GalleryInsertError(services, title, imageUrl, serviceId).value) && gallery == old(gallery)
      ensures GalleryInsertError(services, title, imageUrl, serviceId).None? ==>
        && r == Ok(GalleryItem(old(nextGalleryId), Varchar(title, Schema.TitleMax), description, Varchar(imageUrl, Schema.ImageUrlMax),
                               serviceId, FeaturedFlag(isFeatured), old(clock)))
        && gallery == old(gallery) + [r.value]
      ensures users == old(users) && services == old(services) && requests == old(requests) && testimonials == old(testimonials)
      ensures nextUserId == old(nextUserId) && nextServiceId == old(nextServiceId)
      ensures nextRequestId == old(nextRequestId) && nextTestimonialId == old(nextTestimonialId)
    {
      var g := GalleryItem(nextGalleryId, Varchar(title, Schema.TitleMax), description, Varchar(imageUrl, Schema.ImageUrlMax),
                           serviceId, FeaturedFlag(isFeatured), clock);
      CreateGalleryItemValid(users, services, requests, testimonials, gallery,
                             nextUserId, nextServiceId, nextRequestId, nextTestimonialId, nextGalleryId, clock, g);
      TickValid(users, services, requests, testimonials, gallery,
                nextUserId, nextServiceId, nextRequestId, nextTestimonialId, nextGalleryId, clock);
      var err := GalleryInsertError(services, title, imageUrl, serviceId);
      if err.Some? {
        r := Err(err.value);
      } else {
        gallery := gallery + [g];
        r := Ok(g);
      }
      nextGalleryId := nextGalleryId + IdsDrawn(err);
      clock := clock + 1;
    }

    /** `updateServiceRequestStatus`: the reply and the new table are those of `UpdateStatus`. */
    method UpdateServiceRequestStatus(id: int, status: string) returns (r: Result<Option<ServiceRequest>, DbError>)
      requires Valid()
      modifies this
      ensures Valid()
      ensures clock == old(clock) + 1
      ensures r == UpdateStatus(old(requests), id, status, old(clock)).reply
      ensures requests == UpdateStatus(old(requests), id, status, old(clock)).requests
      ensures users == old(users) && services == old(services) && testimonials == old(testimonials) && gallery == old(gallery)
      ensures nextUserId == old(nextUserId) && nextServiceId == old(nextServiceId) && nextRequestId == old(nextRequestId)
      ensures nextTestimonialId == old(nextTestimonialId) && nextGalleryId == old(nextGalleryId)
    {
      var u := UpdateStatus(requests, id, status, clock);
      TickValid(users, services, requests, testimonials, gallery,
                nextUserId, nextServiceId, nextRequestId, nextTestimonialId, nextGalleryId, clock);
      if FitsVarchar(status, Schema.StatusMax) && RequestById(requests, id).Some? {
        var stored := Varchar(status, Schema.StatusMax);
        WithStatusValid(users, services, requests, testimonials, gallery,
                        nextUserId, nextServiceId, nextRequestId, nextTestimonialId, nextGalleryId, clock,
                        id, stored);
        assert u.requests == WithStatus(requests, id, stored, clock);
      } else {
        assert u.requests == requests;
      }
      requests := u.requests;
      r := u.reply;
      clock := clock + 1;
    }

    /** `approveTestimonial`: `rows[0]` of the UPDATE, absent when no row has that id. */
    method ApproveTestimonial(id: int) returns (r: Option<Testimonial>)
      requires Valid()
      modifies this
      ensures Valid()
      ensures clock == old(clock) + 1
      ensures testimonials == Approved(old(testimonials), id)
      ensures TestimonialById(old(testimonials), id).None? ==> r.None? && testimonials == old(testimonials)
      ensures TestimonialById(old(testimonials), id).Some? ==>
        r == Some(TestimonialById(old(testimonials), id).value.(isApproved := true))
      ensures TestimonialById(testimonials, id) == r
      ensures users == old(users) && services == old(services) && requests == old(requests) && gallery == old(gallery)
      ensures nextUserId == old(nextUserId) && nextServiceId == old(nextServiceId) && nextRequestId == old(nextRequestId)
      ensures nextTestimonialId == old(nextTestimonialId) && nextGalleryId == old(nextGalleryId)
    {
      ApprovedValid(users, services, requests, testimonials, gallery,
                    nextUserId, nextServiceId, nextRequestId, nextTestimonialId, nextGalleryId, clock, id);
      var found := TestimonialById(testimonials, id);
      TestimonialByIdApproved(testimonials, id);
      if found.None? {
        ApprovedUnknownId(testimonials, id);
        r := None;
      } else {
        r := Some(found.value.(isApproved := true));
      }
      testimonials := Approved(testimonials, id);
      clock := clock + 1;
    }
  }

  /** A user inserted with a new email is the one `getUserByEmail` then finds. */
  lemma {:induction false} UserByEmailAppend(users: seq<User>, u: User)
    requires forall x :: x in users ==> x.email != u.email
    ensures UserByEmail(users + [u], u.email) == Some(u)
  {
    if users != [] {
      assert (users + [u])[1..] == users[1..] + [u];
      UserByEmailAppend(users[1..], u);
    }
  }

  /** A service inserted with a fresh id is the one `getServiceById` then finds. */
  lemma {:induction false} ServiceByIdAppend(services: seq<Service>, x: Service)
    requires forall s :: s in services ==> s.id != x.id
    ensures ServiceById(services + [x], x.id) == Some(x)
  {
    if services != [] {
      assert (services + [x])[1..] == services[1..] + [x];
      ServiceByIdAppend(services[1..], x);
    }
  }

  /** After the status update, looking the request up by id gives the updated row. */
  lemma {:induction false} RequestByIdWithStatus(requests: seq<ServiceRequest>, id: int, status: string, now: Instant)
    ensures RequestById(WithStatus(requests, id, status, now), id) ==
      match RequestById(requests, id)
      case None => None
      case Some(q) => Some(q.(status := status, updatedAt := now))
  {
    if requests != [] {
      assert WithStatus(requests, id, status, now)[1..] == WithStatus(requests[1..], id, status, now);
      RequestByIdWithStatus(requests[1..], id, status, now);
    }
  }

  /** After the approval, looking the testimonial up by id gives the approved row. */
  lemma {:induction false} TestimonialByIdApproved(ts: seq<Testimonial>, id: int)
    ensures TestimonialById(Approved(ts, id), id) ==
      match TestimonialById(ts, id)
      case None => None
      case Some(t) => Some(t.(isApproved := true))
  {
    if ts != [] {
      assert Approved(ts, id)[1..] == Approved(ts[1..], id);
      TestimonialByIdApproved(ts[1..], id);
    }
  }

  /** Approving an id no row has changes nothing. */
  lemma {:induction false} ApprovedUnknownId(ts: seq<Testimonial>, id: int)
    requires TestimonialById(ts, id).None?
    ensures Approved(ts, id) == ts
  {
    if ts != [] {
      ApprovedUnknownId(ts[1..], id);
    }
  }

  /** Approving twice is the same as approving once. */
  lemma {:induction false} ApprovedIdempotent(ts: seq<Testimonial>, id: int)
    ensures Approved(Approved(ts, id), id) == Approved(ts, id)
  {
    if ts != [] {
      assert Approved(ts, id)[1..] == Approved(ts[1..], id);
      ApprovedIdempotent(ts[1..], id);
    }
  }

  /** Once approved, a testimonial whose user and service exist is listed by `getApprovedTestimonials`. */
  lemma ApprovalPublishes(ts: seq<Testimonial>, users: seq<User>, services: seq<Service>, t: Testimonial)
    requires t in ts
    requires UserOf(users, t.userId).Some? && ServiceOf(services, t.serviceId).Some?
    ensures exists v :: v in ApprovedTestimonials(Approved(ts, t.id), users, services) && v.testimonial == t.(isApproved := true)
  {
    var k :| 0 <= k < |ts| && ts[k] == t;
    var a := t.(isApproved := true);
    assert Approved(ts, t.id)[k] == a;
    assert a in Approved(ts, t.id);
    assert UserOf(users, a.userId).Some? && ServiceOf(services, a.serviceId).Some?;
    var r := ApprovedTestimonials(Approved(ts, t.id), users, services);
    var v :| v in r && v.testimonial == a;
  }

  /** Updating the status of an id no row has changes nothing. */
  lemma {:induction false} WithStatusUnknownId(requests: seq<ServiceRequest>, id: int, status: string, now: Instant)
    requires RequestById(requests, id).None?
    ensures WithStatus(requests, id, status, now) == requests
  {
    if requests != [] {
      WithStatusUnknownId(requests[1..], id, status, now);
    }
  }

  /** Once a user is stored, a second INSERT with the same email fails on `users_email_key`. */
  lemma DuplicateEmailRejected(users: seq<User>, u: User, name: string, phone: Option<string>)
    requires |u.email| <= Schema.EmailMax && |name| <= Schema.UserNameMax
    requires phone.Some? ==> |phone.value| <= Schema.PhoneMax
    ensures UserInsertError(users + [u], u.email, name, phone) == Some(UniqueViolation("users_email_key"))
  {
    assert u in users + [u];
  }

  /** User rows listed newest first. */
  predicate UsersNewestFirst(r: seq<User>) {
    forall i, j :: 0 <= i < j < |r| ==> r[i].createdAt > r[j].createdAt
  }

  /** `getAllUsers` lists the newest user first. */
  lemma {:induction false} AllUsersNewestFirst(users: seq<User>)
    requires UsersInOrder(users)
    ensures UsersNewestFirst(AllUsers(users))
    decreases |users|
  {
    if users != [] {
      var n := |users| - 1;
      var rest := AllUsers(users[..n]);
      assert UsersInOrder(users[..n]);
      AllUsersNewestFirst(users[..n]);
      var r := AllUsers(users);
      forall i, j | 0 <= i < j < |r| ensures r[i].createdAt > r[j].createdAt {
        assert r[j] == rest[j - 1] && rest[j - 1] in users[..n];
        var k :| 0 <= k < n && users[..n][k] == rest[j - 1];
        assert users[k] == rest[j - 1];
        if i > 0 { assert r[i] == rest[i - 1]; }
      }
    }
  }

  /** The featured and the other rows together are exactly as many as the table has. */
  lemma {:induction false} GalleryPartition(gallery: seq<GalleryItem>, services: seq<Service>)
    ensures |GalleryNewestFirst(gallery, services, true)| + |GalleryNewestFirst(gallery, services, false)| == |gallery|
    decreases |gallery|
  {
    if gallery != [] {
      GalleryPartition(gallery[..|gallery| - 1], services);
    }
  }

  /** `getAllGalleryItems` returns one row per gallery item: the LEFT JOIN drops none. */
  lemma AllGalleryItemsKeepsEveryRow(gallery: seq<GalleryItem>, services: seq<Service>)
    ensures |AllGalleryItems(gallery, services)| == |gallery|
  {
    GalleryPartition(gallery, services);
  }
}
