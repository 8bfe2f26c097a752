/**
 * `setupDatabase` of `database/setup-simple.js`: five CREATE TABLE IF NOT
 * EXISTS statements one after the other (the first failure ends the run in
 * the outer catch), then a loop that inserts five sample services and a loop
 * that creates seven indexes, each iteration catching its own failure.
 *
 * Failures of the server itself (connection refused, lost connection) are not
 * visible in the script; they are the parameter `outage`, the set of steps
 * whose statement fails for such a reason.
 */
module SetupSimple {
  import opened Common
  import Schema
  import Database

  /** A statement of the script, for naming the ones an outage makes fail. */
  datatype Step = CreateTableStep(table: nat) | SeedStep(row: nat) | CreateIndexStep(index: nat)

  /** The console lines the script prints, by kind. */
  datatype Event =
    | Started
    | TableCreated(table: string)
    | ServiceInserted(name: string)
    | ServiceMightExist(name: string)
    | IndexCreated
    | IndexMightExist
    | Completed
    | Failed

  /** A row of the sample `services` array: price in cents. */
  datatype Seed = Seed(name: string, description: string, priceCents: int, durationHours: int)

  const Seeds: seq<Seed> := [
    Seed("Water System Installation", "Complete water system installation for residential and commercial properties", 150000, 8),
    Seed("Pipe Repair & Maintenance", "Professional pipe repair and maintenance services", 25000, 3),
    Seed("Water Quality Testing", "Comprehensive water quality testing and analysis", 15000, 2),
    Seed("Emergency Plumbing", "24/7 emergency plumbing services", 35000, 4),
    Seed("Drainage System Cleaning", "Professional drainage system cleaning and maintenance", 20000, 4)]

  /** The names of the tables, in the order the script creates them. */
  const TableNames: seq<string> := ["users", "services", "service_requests", "testimonials", "gallery"]

  /** Those are the tables of the schema, in its creation order. */
  lemma TableNamesFromSchema()
    ensures TableNames == Schema.Names(Schema.CreationOrder)
  {
  }

  // ---------------------------------------------------------------------------
  // IF NOT EXISTS

  /** `CREATE TABLE IF NOT EXISTS` (and `CREATE INDEX IF NOT EXISTS`): an existing name is left alone. */
  function Ensure(catalog: seq<string>, name: string): (r: seq<string>)
    ensures name in r
    ensures forall x :: x in r <==> x in catalog || x == name
    ensures name in catalog ==> r == catalog
  {
    if name in catalog then catalog else catalog + [name]
  }

  /** The catalog after creating `names` in order. */
  function EnsureAll(catalog: seq<string>, names: seq<string>): (r: seq<string>)
    decreases |names|
  {
    if names == [] then catalog else Ensure(EnsureAll(catalog, names[..|names| - 1]), names[|names| - 1])
  }

  /** Creating one more name applies `Ensure` to the catalog built so far. */
  lemma EnsureAllSnoc(catalog: seq<string>, names: seq<string>, name: string)
    ensures EnsureAll(catalog, names + [name]) == Ensure(EnsureAll(catalog, names), name)
  {
    assert (names + [name])[..|names|] == names;
  }

  lemma {:induction false} EnsureAllContents(catalog: seq<string>, names: seq<string>)
    ensures forall x :: x in EnsureAll(catalog, names) <==> x in catalog || x in names
    decreases |names|
  {
    if names != [] {
      var n := |names| - 1;
      EnsureAllContents(catalog, names[..n]);
      assert names == names[..n] + [names[n]];
    }
  }

  lemma {:induction false} EnsureAllKeeps(catalog: seq<string>, names: seq<string>)
    requires forall x :: x in names ==> x in catalog
    ensures EnsureAll(catalog, names) == catalog
    decreases |names|
  {
    if names != [] {
      var n := |names| - 1;
      EnsureAllKeeps(catalog, names[..n]);
    }
  }

  /** Running the creation statements a second time changes nothing: the re-run is a no-op. */
  lemma EnsureAllIdempotent(catalog: seq<string>, names: seq<string>)
    ensures EnsureAll(EnsureAll(catalog, names), names) == EnsureAll(catalog, names)
  {
    EnsureAllContents(catalog, names);
    EnsureAllKeeps(EnsureAll(catalog, names), names);
  }

  // ---------------------------------------------------------------------------
  // The seed loop as written, and the finding about it

  /** The name the INSERT of `s` stores: VARCHAR(255) cuts trailing spaces past the limit. */
  function StoredName(s: Seed): string {
    Database.Varchar(s.name, Schema.ServiceNameMax)
  }

  /** The row the INSERT of `s` adds, with the id and time it draws. */
  function SeedRow(s: Seed, id: nat, now: Database.Instant): Database.Service {
    Database.Service(id, StoredName(s), s.description, s.priceCents, s.durationHours, Schema.DefaultIsActive, now, now)
  }

  /**
   * The services table after inserting `seeds` in order with
   * `ON CONFLICT DO NOTHING`: the table has no unique column but its serial
   * id, so no insert ever conflicts and every seed is appended.
   */
  function Seeded(services: seq<Database.Service>, id: nat, now: Database.Instant, seeds: seq<Seed>): (r: seq<Database.Service>)
    ensures |r| == |services| + |seeds|
    ensures r[..|services|] == services
    decreases |seeds|
  {
    if seeds == [] then services
    else
      var n := |seeds| - 1;
      Seeded(services, id, now, seeds[..n]) + [SeedRow(seeds[n], id + n, now + n)]
  }

  /** `twice` is `services` followed by the five sample services and then the same five again, by name. */
  predicate SeedsTwice(services: seq<Database.Service>, twice: seq<Database.Service>) {
    && |twice| == |services| + 10
    && (forall k :: 0 <= k < 5 ==> twice[|services| + k].name == Seeds[k].name)
    && (forall k :: 0 <= k < 5 ==> twice[|services| + 5 + k].name == Seeds[k].name)
  }

  /**
   * Running the seed loop twice without failures stores every sample service
   * twice, whatever ids and times the second run starts from.
   */
  lemma SecondRunDuplicatesSeeds(services: seq<Database.Service>, id: nat, now: Database.Instant, once: seq<Database.Service>,
                                  id2: nat, now2: Database.Instant, twice: seq<Database.Service>)
    requires once == Seeded(services, id, now, Seeds)
    requires twice == Seeded(once, id2, now2, Seeds)
    ensures SeedsTwice(services, twice)
  {
    assert twice[..|once|] == once;
    assert |Seeds| == 5 && |once| == |services| + 5;
    SeedsInsertable();
    forall k | 0 <= k < 5 ensures twice[|services| + k].name == Seeds[k].name {
      SeededRow(services, id, now, Seeds, k);
      assert twice[|services| + k] == once[|services| + k];
      assert Seeds[k] in Seeds;
    }
    forall k | 0 <= k < 5 ensures twice[|services| + 5 + k].name == Seeds[k].name {
      SeededRow(once, id2, now2, Seeds, k);
      assert Seeds[k] in Seeds;
    }
  }

  /** The k-th appended row is the k-th seed. */
  lemma {:induction false} SeededRow(services: seq<Database.Service>, id: nat, now: Database.Instant, seeds: seq<Seed>, k: nat)
    requires k < |seeds|
    ensures Seeded(services, id, now, seeds)[|services| + k] == SeedRow(seeds[k], id + k, now + k)
    decreases |seeds|
  {
    var n := |seeds| - 1;
    if k < n {
      SeededRow(services, id, now, seeds[..n], k);
    }
  }

  /** One more seed appends one more row. */
  lemma SeededSnoc(services: seq<Database.Service>, id: nat, now: Database.Instant, seeds: seq<Seed>, x: Seed)
    ensures Seeded(services, id, now, seeds + [x]) == Seeded(services, id, now, seeds) + [SeedRow(x, id + |seeds|, now + |seeds|)]
  {
    assert (seeds + [x])[..|seeds|] == seeds;
  }

  /**
   * Every sample row passes the INSERT checks: its name fits VARCHAR(255)
   * without being cut, and its price fits DECIMAL(10, 2).
   */
  lemma SeedsInsertable()
    ensures forall x :: x in Seeds ==> Database.ServiceInsertError(x.name, x.priceCents).None?
    ensures forall x :: x in Seeds ==> StoredName(x) == x.name
  {
  }

  /**
   * The seed loop as evidently intended: with a unique `name`, `ON CONFLICT
   * DO NOTHING` skips a sample service whose name is already stored. The
   * skipped INSERT still draws its id and time.
   */
  function SeededMissing(services: seq<Database.Service>, id: nat, now: Database.Instant, seeds: seq<Seed>): (r: seq<Database.Service>)
    ensures |services| <= |r| <= |services| + |seeds|
    ensures r[..|services|] == services
    decreases |seeds|
  {
    if seeds == [] then services
    else
      var n := |seeds| - 1;
      var before := SeededMissing(services, id, now, seeds[..n]);
      if Database.ServiceNamed(before, StoredName(seeds[n])) then before
      else before + [SeedRow(seeds[n], id + n, now + n)]
  }

  /** After the intended loop every sample name is stored. */
  lemma {:induction false} SeededMissingHasAll(services: seq<Database.Service>, id: nat, now: Database.Instant, seeds: seq<Seed>)
    ensures forall x :: x in seeds ==> Database.ServiceNamed(SeededMissing(services, id, now, seeds), StoredName(x))
    decreases |seeds|
  {
    if seeds != [] {
      var n := |seeds| - 1;
      var before := SeededMissing(services, id, now, seeds[..n]);
      SeededMissingHasAll(services, id, now, seeds[..n]);
      var r := SeededMissing(services, id, now, seeds);
      forall x | x in seeds ensures Database.ServiceNamed(r, StoredName(x)) {
        if x == seeds[n] {
          if !Database.ServiceNamed(before, StoredName(x)) {
            assert r[|before|] == SeedRow(seeds[n], id + n, now + n);
          }
        } else {
          assert x in seeds[..n];
          var s :| s in before && s.name == StoredName(x);
          assert r[..|before|] == before;
          var k :| 0 <= k < |before| && before[k] == s;
          assert r[k] == s;
        }
      }
    }
  }

  /** When every sample name is already stored, the intended loop adds nothing. */
  lemma {:induction false} SeededMissingKeeps(services: seq<Database.Service>, id: nat, now: Database.Instant, seeds: seq<Seed>)
    requires forall x :: x in seeds ==> Database.ServiceNamed(services, StoredName(x))
    ensures SeededMissing(services, id, now, seeds) == services
    decreases |seeds|
  {
    if seeds != [] {
      var n := |seeds| - 1;
      assert forall x :: x in seeds[..n] ==> x in seeds;
      SeededMissingKeeps(services, id, now, seeds[..n]);
      assert seeds[n] in seeds;
    }
  }

  /** With a unique name the setup could be re-run: the second seeding adds no row. */
  lemma SeededMissingIdempotent(services: seq<Database.Service>, id: nat, now: Database.Instant, id2: nat, now2: Database.Instant)
    ensures var once := SeededMissing(services, id, now, Seeds);
      SeededMissing(once, id2, now2, Seeds) == once
  {
    SeededMissingHasAll(services, id, now, Seeds);
    SeededMissingKeeps(SeededMissing(services, id, now, Seeds), id2, now2, Seeds);
  }

  /** One more seed is skipped when its name is stored, and appended otherwise. */
  lemma SeededMissingSnoc(services: seq<Database.Service>, id: nat, now: Database.Instant, seeds: seq<Seed>, x: Seed)
    ensures var before := SeededMissing(services, id, now, seeds);
      SeededMissing(services, id, now, seeds + [x]) ==
        if Database.ServiceNamed(before, StoredName(x)) then before
        else before + [SeedRow(x, id + |seeds|, now + |seeds|)]
  {
    assert (seeds + [x])[..|seeds|] == seeds;
  }

  // ---------------------------------------------------------------------------
  // What the script prints

  /** The rows among the first `i` of `seeds` whose INSERT reaches the server. */
  function Attempted(seeds: seq<Seed>, outage: set<Step>, i: nat): (r: seq<Seed>)
    requires i <= |seeds|
    ensures |r| <= i
  {
    if i == 0 then []
    else if SeedStep(i - 1) in outage then Attempted(seeds, outage, i - 1)
    else Attempted(seeds, outage, i - 1) + [seeds[i - 1]]
  }

  /** Without an outage every row is attempted. */
  lemma {:induction false} AttemptedAll(seeds: seq<Seed>, outage: set<Step>, i: nat)
    requires i <= |seeds|
    requires forall k :: 0 <= k < i ==> SeedStep(k) !in outage
    ensures Attempted(seeds, outage, i) == seeds[..i]
  {
    if i > 0 {
      AttemptedAll(seeds, outage, i - 1);
      assert seeds[..i] == seeds[..i - 1] + [seeds[i - 1]];
    }
  }

  function SeedEvent(seeds: seq<Seed>, outage: set<Step>, i: nat): Event
    requires i < |seeds|
  {
    if SeedStep(i) in outage then ServiceMightExist(seeds[i].name) else ServiceInserted(seeds[i].name)
  }

  /** The lines the seed loop prints for its first `i` rows. */
  function SeedEvents(seeds: seq<Seed>, outage: set<Step>, i: nat): seq<Event>
    requires i <= |seeds|
  {
    if i == 0 then [] else SeedEvents(seeds, outage, i - 1) + [SeedEvent(seeds, outage, i - 1)]
  }

  /** One line per seed row, in order: every row is attempted, whatever happened to the rows before it. */
  lemma {:induction false} SeedEventsAttemptAll(seeds: seq<Seed>, outage: set<Step>, i: nat)
    requires i <= |seeds|
    ensures |SeedEvents(seeds, outage, i)| == i
    ensures forall k :: 0 <= k < i ==> SeedEvents(seeds, outage, i)[k] == SeedEvent(seeds, outage, k)
  {
    if i > 0 {
      SeedEventsAttemptAll(seeds, outage, i - 1);
    }
  }

  /** The names of the indexes among the first `i` whose CREATE INDEX reaches the server. */
  function IndexesAttempted(indexes: seq<Schema.Index>, outage: set<Step>, i: nat): (r: seq<string>)
    requires i <= |indexes|
    ensures |r| <= i
  {
    if i == 0 then []
    else if CreateIndexStep(i - 1) in outage then IndexesAttempted(indexes, outage, i - 1)
    else IndexesAttempted(indexes, outage, i - 1) + [indexes[i - 1].name]
  }

  function IndexEvent(outage: set<Step>, i: nat): Event {
    if CreateIndexStep(i) in outage then IndexMightExist else IndexCreated
  }

  /** The lines the index loop prints for its first `i` indexes. */
  function IndexEvents(outage: set<Step>, i: nat): seq<Event> {
    if i == 0 then [] else IndexEvents(outage, i - 1) + [IndexEvent(outage, i - 1)]
  }

  /** One line per index, in order: every index is attempted, whatever happened to the ones before it. */
  lemma {:induction false} IndexEventsAttemptAll(outage: set<Step>, i: nat)
    ensures |IndexEvents(outage, i)| == i
    ensures forall k :: 0 <= k < i ==> IndexEvents(outage, i)[k] == IndexEvent(outage, k)
  {
    if i > 0 {
      IndexEventsAttemptAll(outage, i - 1);
    }
  }

  /** The number of tables created before the first one whose statement fails. */
  function TablesReached(outage: set<Step>, i: nat): (r: nat)
    requires i <= |TableNames|
    ensures i <= r <= |TableNames|
    ensures forall k :: i <= k < r ==> CreateTableStep(k) !in outage
    ensures r < |TableNames| ==> CreateTableStep(r) in outage
    decreases |TableNames| - i
  {
    if i == |TableNames| || CreateTableStep(i) in outage then i else TablesReached(outage, i + 1)
  }

  /** No CREATE TABLE fails, so the run goes on to the seeds and the indexes. */
  predicate AllTablesReached(outage: set<Step>) {
    TablesReached(outage, 0) == |TableNames|
  }

  function TableEvents(names: seq<string>): (r: seq<Event>)
    ensures |r| == |names|
    ensures forall k :: 0 <= k < |names| ==> r[k] == TableCreated(names[k])
  {
    if names == [] then [] else TableEvents(names[..|names| - 1]) + [TableCreated(names[|names| - 1])]
  }

  /** Creating table `k` extends the catalog and the console by that one table. */
  lemma TablePrefixSnoc(catalog0: seq<string>, k: nat)
    requires k < |TableNames|
    ensures EnsureAll(catalog0, TableNames[..k + 1]) == Ensure(EnsureAll(catalog0, TableNames[..k]), TableNames[k])
    ensures TableEvents(TableNames[..k + 1]) == TableEvents(TableNames[..k]) + [TableCreated(TableNames[k])]
  {
    var names := TableNames[..k + 1];
    assert names[..k] == TableNames[..k];
    assert names == TableNames[..k] + [TableNames[k]];
    EnsureAllSnoc(catalog0, TableNames[..k], TableNames[k]);
  }

  /** The database server as the script sees it: its tables, its indexes, its rows, and the console. */
  class Server {
    var catalog: seq<string>
    var indexes: seq<string>
    var log: seq<Event>
    const store: Database.Store

    constructor (store: Database.Store)
      ensures this.store == store && catalog == [] && indexes == [] && log == []
    {
      this.store := store;
      catalog, indexes, log := [], [], [];
    }

    /**
     * One CREATE TABLE IF NOT EXISTS, the `k`-th of the script, reached after
     * the first `k` succeeded from `catalog0` and `log0`. When it fails the
     * run stops: `k` is where the first failure is.
     */
    method CreateTable(k: nat, outage: set<Step>, ghost catalog0: seq<string>, ghost log0: seq<Event>) returns (ok: bool)
      requires k < |TableNames|
      requires catalog == EnsureAll(catalog0, TableNames[..k]) && log == log0 + TableEvents(TableNames[..k])
      requires TablesReached(outage, 0) == TablesReached(outage, k)
      modifies this
      ensures ok <==> CreateTableStep(k) !in outage
      ensures ok ==> && catalog == EnsureAll(catalog0, TableNames[..k + 1])
                     && log == log0 + TableEvents(TableNames[..k + 1])
                     && TablesReached(outage, 0) == TablesReached(outage, k + 1)
      ensures !ok ==> && TablesReached(outage, 0) == k
                      && catalog == EnsureAll(catalog0, TableNames[..k])
                      && log == log0 + TableEvents(TableNames[..k])
      ensures indexes == old(indexes)
    {
      ok := CreateTableStep(k) !in outage;
      if ok {
        TablePrefixSnoc(catalog0, k);
        catalog := Ensure(catalog, TableNames[k]);
        log := log + [TableCreated(TableNames[k])];
      }
    }

    /**
     * `setupDatabase`. When a table cannot be created the run stops there:
     * the tables before it exist, no service is seeded, no index created.
     * Otherwise every sample service and every index is attempted in order,
     * whatever happened to the earlier ones.
     */
    method SetupDatabase(outage: set<Step>)
      requires store.Valid()
      modifies this, store
      ensures store.Valid()
      ensures catalog == EnsureAll(old(catalog), TableNames[..TablesReached(outage, 0)])
      ensures !AllTablesReached(outage) ==>
        && log == old(log) + [Started] + TableEvents(TableNames[..TablesReached(outage, 0)]) + [Failed]
        && indexes == old(indexes)
        && store.services == old(store.services)
        && store.nextServiceId == old(store.nextServiceId) && store.clock == old(store.clock)
      ensures AllTablesReached(outage) ==>
        log == old(log) + [Started] + TableEvents(TableNames) + SeedEvents(Seeds, outage, |Seeds|)
               + IndexEvents(outage, |Schema.Indexes|) + [Completed]
      ensures AllTablesReached(outage) ==>
        store.services == Seeded(old(store.services), old(store.nextServiceId), old(store.clock), Attempted(Seeds, outage, |Seeds|))
      ensures AllTablesReached(outage) ==>
        && store.nextServiceId == old(store.nextServiceId) + |Attempted(Seeds, outage, |Seeds|)|
        && store.clock == old(store.clock) + |Attempted(Seeds, outage, |Seeds|)|
      ensures AllTablesReached(outage) ==>
        indexes == EnsureAll(old(indexes), IndexesAttempted(Schema.Indexes, outage, |Schema.Indexes|))
      ensures store.users == old(store.users) && store.requests == old(store.requests)
      ensures store.testimonials == old(store.testimonials) && store.gallery == old(store.gallery)
      ensures store.nextUserId == old(store.nextUserId) && store.nextRequestId == old(store.nextRequestId)
      ensures store.nextTestimonialId == old(store.nextTestimonialId) && store.nextGalleryId == old(store.nextGalleryId)
    {
      log := log + [Started];
      var ok := CreateTables(outage);
      if !ok {
        log := log + [Failed];
        return;
      }
      assert TableNames[..|TableNames|] == TableNames;

      SeedsInsertable();
      var seeded := SeedServices(Seeds, outage);
      log := log + seeded;
      CreateIndexes(Schema.Indexes, outage);
      log := log + [Completed];
    }

    /**
     * The script run twice against the same server, with no outage: the
     * second run draws the ids and times the first one left, and stores every
     * sample service a second time (see `SecondRunDuplicatesSeeds`).
     */
    method SetupTwice()
      requires store.Valid()
      modifies this, store
      ensures store.Valid()
      ensures SeedsTwice(old(store.services), store.services)
    {
      AttemptedAll(Seeds, {}, |Seeds|);
      assert Seeds[..|Seeds|] == Seeds;
      ghost var s0, id0, c0 := store.services, store.nextServiceId, store.clock;
      SetupDatabase({});
      ghost var s1, id1, c1 := store.services, store.nextServiceId, store.clock;
      SetupDatabase({});
      SecondRunDuplicatesSeeds(s0, id0, c0, s1, id1, c1, store.services);
    }

    /** The five CREATE TABLE statements, one after the other; `ok` is false when one of them fails. */
    method CreateTables(outage: set<Step>) returns (ok: bool)
      modifies this
      ensures var k := TablesReached(outage, 0);
        && (ok <==> k == |TableNames|)
        && catalog == EnsureAll(old(catalog), TableNames[..k])
        && log == old(log) + TableEvents(TableNames[..k])
      ensures indexes == old(indexes)
    {
      ghost var catalog0, log0 := catalog, log;
      assert TableNames[..0] == [];
      ok := CreateTable(0, outage, catalog0, log0);
      if ok { ok := CreateTable(1, outage, catalog0, log0); }
      if ok { ok := CreateTable(2, outage, catalog0, log0); }
      if ok { ok := CreateTable(3, outage, catalog0, log0); }
      if ok { ok := CreateTable(4, outage, catalog0, log0); }
    }

    /**
     * The seed loop: every row is attempted; a failing INSERT is caught and
     * the loop goes on. `events` are the lines it prints.
     */
    method SeedServices(seeds: seq<Seed>, outage: set<Step>) returns (events: seq<Event>)
      requires store.Valid()
      requires forall x :: x in seeds ==> Database.ServiceInsertError(x.name, x.priceCents).None?
      modifies store
      ensures store.Valid()
      ensures store.services == Seeded(old(store.services), old(store.nextServiceId), old(store.clock), Attempted(seeds, outage, |seeds|))
      ensures events == SeedEvents(seeds, outage, |seeds|)
      ensures store.nextServiceId == old(store.nextServiceId) + |Attempted(seeds, outage, |seeds|)|
      ensures store.clock == old(store.clock) + |Attempted(seeds, outage, |seeds|)|
      ensures store.users == old(store.users) && store.requests == old(store.requests)
      ensures store.testimonials == old(store.testimonials) && store.gallery == old(store.gallery)
      ensures store.nextUserId == old(store.nextUserId) && store.nextRequestId == old(store.nextRequestId)
      ensures store.nextTestimonialId == old(store.nextTestimonialId) && store.nextGalleryId == old(store.nextGalleryId)
    {
      events := [];
      ghost var services0, id0, clock0 := store.services, store.nextServiceId, store.clock;
      ghost var users0, requests0, testimonials0, gallery0 := store.users, store.requests, store.testimonials, store.gallery;
      ghost var nU0, nR0, nT0, nG0 := store.nextUserId, store.nextRequestId, store.nextTestimonialId, store.nextGalleryId;
      for i := 0 to |seeds|
        invariant store.Valid()
        invariant store.services == Seeded(services0, id0, clock0, Attempted(seeds, outage, i))
        invariant store.nextServiceId == id0 + |Attempted(seeds, outage, i)|
        invariant store.clock == clock0 + |Attempted(seeds, outage, i)|
        invariant events == SeedEvents(seeds, outage, i)
        invariant store.users == users0 && store.requests == requests0
        invariant store.testimonials == testimonials0 && store.gallery == gallery0
        invariant store.nextUserId == nU0 && store.nextRequestId == nR0
        invariant store.nextTestimonialId == nT0 && store.nextGalleryId == nG0
      {
        var event := SeedOne(seeds, outage, i, services0, id0, clock0);
        events := events + [event];
      }
    }

    /** One iteration of the seed loop: the `i`-th row, inside its own try/catch. */
    method SeedOne(seeds: seq<Seed>, outage: set<Step>, i: nat,
                   ghost services0: seq<Database.Service>, ghost id0: nat, ghost clock0: Database.Instant)
      returns (event: Event)
      requires i < |seeds| && store.Valid()
      requires forall x :: x in seeds ==> Database.ServiceInsertError(x.name, x.priceCents).None?
      requires store.services == Seeded(services0, id0, clock0, Attempted(seeds, outage, i))
      requires store.nextServiceId == id0 + |Attempted(seeds, outage, i)|
      requires store.clock == clock0 + |Attempted(seeds, outage, i)|
      modifies store
      ensures store.Valid()
      ensures event == SeedEvent(seeds, outage, i)
      ensures store.services == Seeded(services0, id0, clock0, Attempted(seeds, outage, i + 1))
      ensures store.nextServiceId == id0 + |Attempted(seeds, outage, i + 1)|
      ensures store.clock == clock0 + |Attempted(seeds, outage, i + 1)|
      ensures store.users == old(store.users) && store.requests == old(store.requests)
      ensures store.testimonials == old(store.testimonials) && store.gallery == old(store.gallery)
      ensures store.nextUserId == old(store.nextUserId) && store.nextRequestId == old(store.nextRequestId)
      ensures store.nextTestimonialId == old(store.nextTestimonialId) && store.nextGalleryId == old(store.nextGalleryId)
    {
      var s := seeds[i];
      if SeedStep(i) in outage {
        assert Attempted(seeds, outage, i + 1) == Attempted(seeds, outage, i);
        assert store.services == Seeded(services0, id0, clock0, Attempted(seeds, outage, i + 1));
        event := ServiceMightExist(s.name);
      } else {
        ghost var done := Attempted(seeds, outage, i);
        ghost var row := SeedRow(s, store.nextServiceId, store.clock);
        assert Attempted(seeds, outage, i + 1) == done + [s];
        assert s in seeds;
        SeededSnoc(services0, id0, clock0, done, s);
        var r := store.CreateService(s.name, s.description, s.priceCents, s.durationHours);
        assert r == Ok(row);
        assert row == SeedRow(s, id0 + |done|, clock0 + |done|);
        assert store.services == Seeded(services0, id0, clock0, done + [s]);
        assert store.services == Seeded(services0, id0, clock0, Attempted(seeds, outage, i + 1));
        event := ServiceInserted(s.name);
      }
    }

    /**
     * The seed loop with `name` unique, as evidently intended: every row is
     * attempted, and a row whose name is stored is skipped by `ON CONFLICT DO
     * NOTHING` instead of being added again.
     */
    method SeedServicesUnique(seeds: seq<Seed>, outage: set<Step>) returns (events: seq<Event>)
      requires store.Valid()
      requires forall x :: x in seeds ==> Database.ServiceInsertError(x.name, x.priceCents).None?
      modifies store
      ensures store.Valid()
      ensures store.services == SeededMissing(old(store.services), old(store.nextServiceId), old(store.clock), Attempted(seeds, outage, |seeds|))
      ensures events == SeedEvents(seeds, outage, |seeds|)
      ensures store.nextServiceId == old(store.nextServiceId) + |Attempted(seeds, outage, |seeds|)|
      ensures store.clock == old(store.clock) + |Attempted(seeds, outage, |seeds|)|
      ensures store.users == old(store.users) && store.requests == old(store.requests)
      ensures store.testimonials == old(store.testimonials) && store.gallery == old(store.gallery)
      ensures store.nextUserId == old(store.nextUserId) && store.nextRequestId == old(store.nextRequestId)
      ensures store.nextTestimonialId == old(store.nextTestimonialId) && store.nextGalleryId == old(store.nextGalleryId)
    {
      events := [];
      ghost var services0, id0, clock0 := store.services, store.nextServiceId, store.clock;
      ghost var users0, requests0, testimonials0, gallery0 := store.users, store.requests, store.testimonials, store.gallery;
      ghost var nU0, nR0, nT0, nG0 := store.nextUserId, store.nextRequestId, store.nextTestimonialId, store.nextGalleryId;
      for i := 0 to |seeds|
        invariant store.Valid()
        invariant store.services == SeededMissing(services0, id0, clock0, Attempted(seeds, outage, i))
        invariant store.nextServiceId == id0 + |Attempted(seeds, outage, i)|
        invariant store.clock == clock0 + |Attempted(seeds, outage, i)|
        invariant events == SeedEvents(seeds, outage, i)
        invariant store.users == users0 && store.requests == requests0
        invariant store.testimonials == testimonials0 && store.gallery == gallery0
        invariant store.nextUserId == nU0 && store.nextRequestId == nR0
        invariant store.nextTestimonialId == nT0 && store.nextGalleryId == nG0
      {
        var event := SeedOneUnique(seeds, outage, i, services0, id0, clock0);
        events := events + [event];
      }
    }

    /** One iteration of the corrected seed loop. */
    method SeedOneUnique(seeds: seq<Seed>, outage: set<Step>, i: nat,
                   ghost services0: seq<Database.Service>, ghost id0: nat, ghost clock0: Database.Instant)
      returns (event: Event)
      requires i < |seeds| && store.Valid()
      requires forall x :: x in seeds ==> Database.ServiceInsertError(x.name, x.priceCents).None?
      requires store.services == SeededMissing(services0, id0, clock0, Attempted(seeds, outage, i))
      requires store.nextServiceId == id0 + |Attempted(seeds, outage, i)|
      requires store.clock == clock0 + |Attempted(seeds, outage, i)|
      modifies store
      ensures store.Valid()
      ensures event == SeedEvent(seeds, outage, i)
      ensures store.services == SeededMissing(services0, id0, clock0, Attempted(seeds, outage, i + 1))
      ensures store.nextServiceId == id0 + |Attempted(seeds, outage, i + 1)|
      ensures store.clock == clock0 + |Attempted(seeds, outage, i + 1)|
      ensures store.users == old(store.users) && store.requests == old(store.requests)
      ensures store.testimonials == old(store.testimonials) && store.gallery == old(store.gallery)
      ensures store.nextUserId == old(store.nextUserId) && store.nextRequestId == old(store.nextRequestId)
      ensures store.nextTestimonialId == old(store.nextTestimonialId) && store.nextGalleryId == old(store.nextGalleryId)
    {
      var s := seeds[i];
      if SeedStep(i) in outage {
        assert Attempted(seeds, outage, i + 1) == Attempted(seeds, outage, i);
        assert store.services == SeededMissing(services0, id0, clock0, Attempted(seeds, outage, i + 1));
        event := ServiceMightExist(s.name);
      } else {
        ghost var done := Attempted(seeds, outage, i);
        ghost var row := SeedRow(s, store.nextServiceId, store.clock);
        assert Attempted(seeds, outage, i + 1) == done + [s];
        assert s in seeds;
        SeededMissingSnoc(services0, id0, clock0, done, s);
        var r := store.CreateServiceUnlessNamed(s.name, s.description, s.priceCents, s.durationHours);
        assert row == SeedRow(s, id0 + |done|, clock0 + |done|);
        assert store.services == SeededMissing(services0, id0, clock0, done + [s]);
        assert store.services == SeededMissing(services0, id0, clock0, Attempted(seeds, outage, i + 1));
        event := ServiceInserted(s.name);
      }
    }

    /** The index loop: every index is attempted; a failing CREATE INDEX is caught and the loop goes on. */
    method CreateIndexes(all: seq<Schema.Index>, outage: set<Step>)
      modifies this
      ensures indexes == EnsureAll(old(indexes), IndexesAttempted(all, outage, |all|))
      ensures log == old(log) + IndexEvents(outage, |all|)
      ensures catalog == old(catalog)
    {
      for i := 0 to |all|
        invariant indexes == EnsureAll(old(indexes), IndexesAttempted(all, outage, i))
        invariant log == old(log) + IndexEvents(outage, i)
        invariant catalog == old(catalog)
      {
        if CreateIndexStep(i) in outage {
          log := log + [IndexMightExist];
        } else {
          EnsureAllSnoc(old(indexes), IndexesAttempted(all, outage, i), all[i].name);
          indexes := Ensure(indexes, all[i].name);
          log := log + [IndexCreated];
        }
      }
    }
  }
}
