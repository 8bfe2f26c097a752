/**
 * The relational schema that `database/setup-simple.js` creates: five tables
 * with their column types, keys, defaults, CHECK and REFERENCES clauses, and
 * the seven secondary indexes. The limits and defaults named here are the
 * ones the store in `database.dfy` enforces and applies.
 */
module Schema {
  import opened Common

  /** Column types as written in the CREATE TABLE statements. */
  datatype SqlType =
    | Serial
    | Varchar(limit: nat)
    | Text
    | Decimal(precision: nat, scale: nat)
    | Integer
    | Boolean
    | Timestamp

  /** The DEFAULT clause of a column (a SERIAL column draws from its own sequence). */
  datatype Default = NoDefault | NextSerial | CurrentTimestamp | BoolDefault(b: bool) | TextDefault(s: string)

  /** An inclusive range, for a `CHECK (c >= lo AND c <= hi)` clause. */
  datatype Range = Range(lo: int, hi: int)

  datatype Column = Column(
    name: string,
    sqlType: SqlType,
    primaryKey: bool,
    unique: bool,
    notNull: bool,
    default: Default,
    references: Option<string>,
    check: Option<Range>)

  datatype Table = Table(name: string, columns: seq<Column>)

  datatype Index = Index(name: string, table: string, column: string)

  // Limits and defaults used by the store.
  const EmailMax: nat := 255
  const UserNameMax: nat := 255
  const PhoneMax: nat := 20
  const ServiceNameMax: nat := 255
  const StatusMax: nat := 50
  const TitleMax: nat := 255
  const ImageUrlMax: nat := 500
  const RatingMin: int := 1
  const RatingMax: int := 5
  const DefaultStatus: string := "pending"
  const DefaultIsActive: bool := true
  const DefaultIsApproved: bool := false
  const DefaultIsFeatured: bool := false
  /** DECIMAL(10, 2): ten digits, two of them after the point, so at most 9999999999 cents. */
  const MoneyType: SqlType := Decimal(10, 2)

  /** A nullable column with no default and no constraint. */
  function Plain(name: string, t: SqlType): Column {
    Column(name, t, false, false, false, NoDefault, None, None)
  }

  function IdColumn(): Column {
    Column("id", Serial, true, true, true, NextSerial, None, None)
  }

  function Stamp(name: string): Column {
    Plain(name, Timestamp).(default := CurrentTimestamp)
  }

  /** `<name> INTEGER REFERENCES <parent>(id)`: nullable. */
  function ForeignKey(name: string, parent: string): Column {
    Plain(name, Integer).(references := Some(parent))
  }

  const Users: Table := Table("users", [
    IdColumn(),
    Plain("email", Varchar(EmailMax)).(unique := true, notNull := true),
    Plain("name", Varchar(UserNameMax)).(notNull := true),
    Plain("phone", Varchar(PhoneMax)),
    Stamp("created_at"),
    Stamp("updated_at")])

  const Services: Table := Table("services", [
    IdColumn(),
    Plain("name", Varchar(ServiceNameMax)).(notNull := true),
    Plain("description", Text),
    Plain("price", MoneyType),
    Plain("duration_hours", Integer),
    Plain("is_active", Boolean).(default := BoolDefault(DefaultIsActive)),
    Stamp("created_at"),
    Stamp("updated_at")])

  const ServiceRequests: Table := Table("service_requests", [
    IdColumn(),
    ForeignKey("user_id", "users"),
    ForeignKey("service_id", "services"),
    Plain("status", Varchar(StatusMax)).(default := TextDefault(DefaultStatus)),
    Plain("scheduled_date", Timestamp),
    Plain("address", Text),
    Plain("notes", Text),
    Plain("estimated_cost", MoneyType),
    Stamp("created_at"),
    Stamp("updated_at")])

  const Testimonials: Table := Table("testimonials", [
    IdColumn(),
    ForeignKey("user_id", "users"),
    ForeignKey("service_id", "services"),
    Plain("rating", Integer).(check := Some(Range(RatingMin, RatingMax))),
    Plain("comment", Text),
    Plain("is_approved", Boolean).(default := BoolDefault(DefaultIsApproved)),
    Stamp("created_at")])

  const Gallery: Table := Table("gallery", [
    IdColumn(),
    Plain("title", Varchar(TitleMax)),
    Plain("description", Text),
    Plain("image_url", Varchar(ImageUrlMax)),
    ForeignKey("service_id", "services"),
    Plain("is_featured", Boolean).(default := BoolDefault(DefaultIsFeatured)),
    Stamp("created_at")])

  /** The tables in the order the setup script creates them. */
  const CreationOrder: seq<Table> := [Users, Services, ServiceRequests, Testimonials, Gallery]

  /** The indexes in the order the setup script creates them. */
  const Indexes: seq<Index> := [
    Index("idx_service_requests_user_id", "service_requests", "user_id"),
    Index("idx_service_requests_service_id", "service_requests", "service_id"),
    Index("idx_service_requests_status", "service_requests", "status"),
    Index("idx_testimonials_user_id", "testimonials", "user_id"),
    Index("idx_testimonials_approved", "testimonials", "is_approved"),
    Index("idx_gallery_service_id", "gallery", "service_id"),
    Index("idx_gallery_featured", "gallery", "is_featured")]

  /** The first column of `t` called `name`, if any. */
  function ColumnNamed(t: Table, name: string): (r: Option<Column>)
    ensures r.Some? ==> r.value in t.columns && r.value.name == name
    ensures r.None? ==> forall c :: c in t.columns ==> c.name != name
  {
    FindColumn(t.columns, name)
  }

  function FindColumn(cs: seq<Column>, name: string): (r: Option<Column>)
    ensures r.Some? ==> r.value in cs && r.value.name == name
    ensures r.None? ==> forall c :: c in cs ==> c.name != name
  {
    if cs == [] then None
    else if cs[0].name == name then Some(cs[0])
    else FindColumn(cs[1..], name)
  }

  /** The names of the tables in `ts`, in order. */
  function Names(ts: seq<Table>): (r: seq<string>)
    ensures |r| == |ts|
    ensures forall i :: 0 <= i < |ts| ==> r[i] == ts[i].name
  {
    if ts == [] then [] else [ts[0].name] + Names(ts[1..])
  }

  /** The first two tables created, `users` and `services`, reference no other table. */
  lemma ParentsCreatedFirst()
    ensures CreationOrder[0] == Users && CreationOrder[1] == Services
    ensures forall t, c :: t in CreationOrder[..2] && c in t.columns ==> c.references.None?
  {
  }

  /**
   * Foreign-key columns are nullable, and each references `users` or
   * `services`, the two tables created first: no REFERENCES clause names a
   * table that does not exist yet.
   */
  lemma ForeignKeysNullable()
    ensures forall t :: t in CreationOrder ==> ForeignKeysNullableIn(t)
  {
    ParentsCreatedFirst();
    RequestKeysNullable();
    TestimonialKeysNullable();
    GalleryKeyNullable();
  }

  lemma RequestKeysNullable()
    ensures ForeignKeysNullableIn(ServiceRequests)
  {
  }

  lemma TestimonialKeysNullable()
    ensures ForeignKeysNullableIn(Testimonials)
  {
  }

  lemma GalleryKeyNullable()
    ensures ForeignKeysNullableIn(Gallery)
  {
  }

  /** Every REFERENCES column of `t` is nullable and names `users` or `services`. */
  predicate ForeignKeysNullableIn(t: Table) {
    forall c :: c in t.columns && c.references.Some? ==>
      !c.notNull && (c.references.value == "users" || c.references.value == "services")
  }

  /** Email is the only user column besides `id` that is unique, and it and `name` are NOT NULL. */
  lemma UserEmailUniqueNotNull()
    ensures ColumnNamed(Users, "email") == Some(Column("email", Varchar(255), false, true, true, NoDefault, None, None))
    ensures ColumnNamed(Users, "name").Some? && ColumnNamed(Users, "name").value.notNull
    ensures forall c :: c in Users.columns && c.unique ==> c.name in {"id", "email"}
  {
  }

  /** `services` has no unique column other than its serial id. */
  lemma ServicesOnlyKeyIsId()
    ensures forall c :: c in Services.columns && (c.unique || c.primaryKey) ==> c == IdColumn()
  {
  }

  /** The column defaults an INSERT that omits the column falls back to. */
  lemma InsertDefaults()
    ensures Services.columns[5].name == "is_active" && Services.columns[5].default == BoolDefault(true)
    ensures ServiceRequests.columns[3].name == "status" && ServiceRequests.columns[3].default == TextDefault("pending")
    ensures Testimonials.columns[5].name == "is_approved" && Testimonials.columns[5].default == BoolDefault(false)
    ensures Gallery.columns[5].name == "is_featured" && Gallery.columns[5].default == BoolDefault(false)
  {
  }

  /** A rating must lie in 1..5. */
  lemma RatingChecked()
    ensures Testimonials.columns[3].name == "rating" && Testimonials.columns[3].check == Some(Range(1, 5))
    ensures forall c :: c in Testimonials.columns && c != Testimonials.columns[3] ==> c.check.None?
  {
  }

  /** Each index is on a column of one of the created tables. */
  lemma IndexesOnExistingColumns()
    ensures forall x :: x in Indexes ==>
      exists t, c :: t in CreationOrder && c in t.columns && t.name == x.table && c.name == x.column
  {
    assert ServiceRequests.columns[1].name == "user_id";
    assert ServiceRequests.columns[2].name == "service_id";
    assert ServiceRequests.columns[3].name == "status";
    assert Testimonials.columns[1].name == "user_id";
    assert Testimonials.columns[5].name == "is_approved";
    assert Gallery.columns[4].name == "service_id";
    assert Gallery.columns[5].name == "is_featured";
  }
}
