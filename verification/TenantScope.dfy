/** The tenant rewrite of every query, backend/lib/prisma.js, over a table of rows. */
module TenantScope {
  import opened Wrappers

  const TENANT := "tenantId"

  /** The columns of a row that are not null. */
  type Row = map<string, string>

  /** Rows by primary key. */
  type Table = map<string, Row>

  /** What a filter says of a column: comparisons with a null are neither true nor false. */
  datatype Truth = True | False | Unknown

  /** A filter on one column: equality, or any other filter of the query language by what it says. */
  datatype Condition = Equals(value: string) | Filter(decides: Option<string> -> Truth)

  /** A where clause: a conjunction of columns, with optional AND, OR and NOT lists. */
  datatype Where = Where(fields: map<string, Condition>, all: Clauses, any: Clauses, none: Clauses)

  datatype Clauses = Omitted | Listed(list: seq<Where>)

  function Column(row: Row, name: string): Option<string> {
    if name in row then Some(row[name]) else None
  }

  function Decide(c: Condition, value: Option<string>): Truth {
    match c
    case Equals(v) => if value.None? then Unknown else if value.value == v then True else False
    case Filter(decides) => decides(value)
  }

  /** The clause is true of the row. */
  predicate Matches(row: Row, w: Where)
    decreases w
  {
    && (forall f :: f in w.fields ==> Decide(w.fields[f], Column(row, f)) == True)
    && (w.all.Listed? ==> forall i :: 0 <= i < |w.all.list| ==> Matches(row, w.all.list[i]))
    && (w.any.Listed? ==> exists i :: 0 <= i < |w.any.list| && Matches(row, w.any.list[i]))
    && (w.none.Listed? ==> forall i :: 0 <= i < |w.none.list| ==> Refuses(row, w.none.list[i]))
  }

  /** The clause is false of the row; with nulls it may be neither. */
  predicate Refuses(row: Row, w: Where)
    decreases w
  {
    || (exists f :: f in w.fields && Decide(w.fields[f], Column(row, f)) == False)
    || (w.all.Listed? && exists i :: 0 <= i < |w.all.list| && Refuses(row, w.all.list[i]))
    || (w.any.Listed? && forall i :: 0 <= i < |w.any.list| ==> Refuses(row, w.any.list[i]))
    || (w.none.Listed? && exists i :: 0 <= i < |w.none.list| && Matches(row, w.none.list[i]))
  }

  /** No clause selects every row. */
  predicate Selects(w: Option<Where>, row: Row) {
    w.Some? ==> Matches(row, w.value)
  }

  predicate Owns(tenant: string, row: Row) {
    Column(row, TENANT) == Some(tenant)
  }

  // ---- mergeTenantWhere ----

  function OnlyTenant(tenant: string): Where {
    Where(map[TENANT := Equals(tenant)], Omitted, Omitted, Omitted)
  }

  predicate IsEmpty(w: Where) {
    |w.fields| == 0 && w.all.Omitted? && w.any.Omitted? && w.none.Omitted?
  }

  function MergeTenantWhere(where: Option<Where>, tenant: string): Option<Where> {
    if tenant == "" then where
    else if where.None? || IsEmpty(where.value) then Some(OnlyTenant(tenant))
    else if TENANT in where.value.fields && where.value.fields[TENANT].Equals?
      && where.value.fields[TENANT].value == tenant then
      where
    else Some(Where(map[], Listed([where.value, OnlyTenant(tenant)]), Omitted, Omitted))
  }

  lemma OnlyTenantMatches(row: Row, tenant: string)
    ensures Matches(row, OnlyTenant(tenant)) <==> Owns(tenant, row)
  {
    assert TENANT in OnlyTenant(tenant).fields;
  }

  lemma ConjunctionMatches(row: Row, a: Where, b: Where)
    ensures Matches(row, Where(map[], Listed([a, b]), Omitted, Omitted)) <==> Matches(row, a) && Matches(row, b)
  {
    var both := [a, b];
    assert both[0] == a && both[1] == b;
  }

  /** The rewritten clause selects exactly the rows of the tenant that the clause selects. */
  lemma RewriteMeaning(row: Row, where: Option<Where>, tenant: string)
    requires tenant != ""
    ensures Selects(MergeTenantWhere(where, tenant), row) <==> Selects(where, row) && Owns(tenant, row)
  {
    OnlyTenantMatches(row, tenant);
    if where.Some? && !IsEmpty(where.value) {
      ConjunctionMatches(row, where.value, OnlyTenant(tenant));
    }
  }

  /** Rewriting again adds nothing for the same tenant and leaves nothing for another. */
  lemma RewriteTwice(row: Row, where: Option<Where>, tenant: string, other: string)
    requires tenant != "" && other != ""
    ensures Selects(MergeTenantWhere(MergeTenantWhere(where, tenant), other), row)
       <==> tenant == other && Selects(MergeTenantWhere(where, tenant), row)
  {
    RewriteMeaning(row, MergeTenantWhere(where, tenant), other);
    RewriteMeaning(row, where, tenant);
  }

  // ---- The operations ----

  datatype Operation =
    | FindMany | FindFirst | FindFirstOrThrow | Count | Aggregate | GroupBy | UpdateMany | DeleteMany
    | FindUnique | FindUniqueOrThrow | Create | CreateMany | Upsert | Update | Delete

  datatype Data = Absent | One(row: Row) | Many(rows: seq<Row>)

  /** The arguments of a query. `key` is the unique key that update, delete and upsert must name; `where` holds
      the other filters. */
  datatype Args = Args(key: string, where: Option<Where>, data: Data, create: Option<Row>, update: Row)

  predicate ReadMany(op: Operation) {
    op in {FindMany, FindFirst, FindFirstOrThrow, Count, Aggregate, GroupBy, UpdateMany, DeleteMany}
  }

  /** A written tenant id stands, a missing one becomes the caller's. */
  function Stamp(row: Row, tenant: string): Row {
    if TENANT in row then row else row[TENANT := tenant]
  }

  function StampOption(row: Option<Row>, tenant: string): Row {
    Stamp(if row.Some? then row.value else map[], tenant)
  }

  function StampAll(rows: seq<Row>, tenant: string): (r: seq<Row>)
    ensures |r| == |rows| && forall i :: 0 <= i < |rows| ==> r[i] == Stamp(rows[i], tenant)
  {
    seq(|rows|, i requires 0 <= i < |rows| => Stamp(rows[i], tenant))
  }

  function StampData(data: Data, tenant: string): Row {
    Stamp(if data.One? then data.row else map[], tenant)
  }

  /** The arguments the query runs with, for a tenant-scoped model inside a tenant's context. */
  function Scoped(op: Operation, args: Args, tenant: string): Args {
    if ReadMany(op) || op == FindUnique || op == FindUniqueOrThrow then
      args.(where := MergeTenantWhere(args.where, tenant))
    else if op == Create then args.(data := One(StampData(args.data, tenant)))
    else if op == CreateMany && args.data.Many? then args.(data := Many(StampAll(args.data.rows, tenant)))
    else if op == Upsert then args.(create := Some(StampOption(args.create, tenant)))
    else args
  }

  /** The argument object of one query, whose fields $allOperations assigns. */
  class Query {
    var where: Option<Where>
    var data: Data
    var create: Option<Row>
    const update: Row
    const key: string

    constructor (args: Args)
      ensures Value() == args
    {
      key, where, data, create, update := args.key, args.where, args.data, args.create, args.update;
    }

    ghost function Value(): Args
      reads this
    {
      Args(key, where, data, create, update)
    }

    method AllOperations(scopedModel: bool, op: Operation, tenant: Option<string>, bypassed: bool)
      modifies this
      ensures Value() == if tenant.None? || tenant.value == "" || bypassed || !scopedModel then old(Value())
                         else Scoped(op, old(Value()), tenant.value)
    {
      if tenant.None? || tenant.value == "" || bypassed || !scopedModel {
        return;
      }
      if ReadMany(op) {
        where := MergeTenantWhere(where, tenant.value);
      }
      if op == FindUnique {
        where := MergeTenantWhere(where, tenant.value);
      }
      if op == FindUniqueOrThrow {
        where := MergeTenantWhere(where, tenant.value);
      }
      if op == Create {
        data := One(StampData(data, tenant.value));
      }
      if op == CreateMany && data.Many? {
        data := Many(StampAll(data.rows, tenant.value));
      }
      if op == Upsert {
        create := Some(StampOption(create, tenant.value));
      }
    }
  }

  // ---- What the database does with a query, whoever asks ----

  function Updated(table: Table, where: Option<Where>, data: Row): Table {
    map id | id in table :: if Selects(where, table[id]) then table[id] + data else table[id]
  }

  function Deleted(table: Table, where: Option<Where>): Table {
    map id | id in table && !Selects(where, table[id]) :: table[id]
  }

  /** The tenant id is a required column and the key is unique: otherwise the insert fails. */
  predicate CanInsert(table: Table, ids: seq<string>, rows: seq<Row>) {
    && |ids| == |rows|
    && (forall i :: 0 <= i < |ids| ==> ids[i] !in table && TENANT in rows[i])
    && (forall i, j :: 0 <= i < j < |ids| ==> ids[i] != ids[j])
  }

  function Inserted(table: Table, ids: seq<string>, rows: seq<Row>): Table
    requires |ids| == |rows|
  {
    if ids == [] then table else Inserted(table, ids[..|ids| - 1], rows[..|ids| - 1])[ids[|ids| - 1] := rows[|ids| - 1]]
  }

  function Insert(table: Table, ids: seq<string>, rows: seq<Row>): Table {
    if CanInsert(table, ids, rows) then Inserted(table, ids, rows) else table
  }

  function Entries(data: Data): seq<Row> {
    match data
    case Absent => []
    case One(row) => [row]
    case Many(rows) => rows
  }

  /** The one row that update, delete and upsert select, if it is there. */
  predicate Targets(table: Table, args: Args) {
    args.key in table && Selects(args.where, table[args.key])
  }

  function DataRow(data: Data): Row {
    if data.One? then data.row else map[]
  }

  function UpdatedAt(table: Table, key: string, data: Row): Table
    requires key in table
  {
    table[key := table[key] + data]
  }

  /** The table after a query; `ids` are the keys of the rows it creates. */
  function Perform(table: Table, op: Operation, args: Args, ids: seq<string>): Table {
    match op
    case UpdateMany => Updated(table, args.where, DataRow(args.data))
    case DeleteMany => Deleted(table, args.where)
    case Update => if Targets(table, args) then UpdatedAt(table, args.key, DataRow(args.data)) else table
    case Delete => if Targets(table, args) then table - {args.key} else table
    case Create | CreateMany => Insert(table, ids, Entries(args.data))
    case Upsert =>
      if Targets(table, args) then UpdatedAt(table, args.key, args.update)
      else Insert(table, ids, if args.create.Some? then [args.create.value] else [])
    case _ => table
  }

  /** The rows a query reads. */
  function Found(table: Table, where: Option<Where>): Table {
    map id | id in table && Selects(where, table[id]) :: table[id]
  }

  datatype Request = Request(tenant: string, op: Operation, args: Args, ids: seq<string>)

  function Step(table: Table, r: Request): Table {
    Perform(table, r.op, Scoped(r.op, r.args, r.tenant), r.ids)
  }

  function Run(table: Table, requests: seq<Request>): Table {
    if requests == [] then table else Step(Run(table, requests[..|requests| - 1]), requests[|requests| - 1])
  }

  /** One tenant's part of the table. */
  function View(table: Table, tenant: string): Table {
    map id | id in table && Owns(tenant, table[id]) :: table[id]
  }

  predicate KeepsTenant(row: Row, tenant: string) {
    TENANT in row ==> row[TENANT] == tenant
  }

  /** Bulk operations and creates, whose data do not name another tenant; createMany gets a list. */
  predicate Polite(r: Request) {
    && r.tenant != ""
    && r.op !in {Update, Delete, Upsert}
    && (r.op == CreateMany ==> !r.args.data.One?)
    && forall i :: 0 <= i < |Entries(r.args.data)| ==> KeepsTenant(Entries(r.args.data)[i], r.tenant)
  }

  // ---- Non-interference ----

  lemma ViewOfUpdated(table: Table, where: Option<Where>, data: Row, tenant: string, u: string)
    requires tenant != "" && KeepsTenant(data, tenant)
    ensures var w := MergeTenantWhere(where, tenant);
            View(Updated(table, w, data), u) == if u == tenant then Updated(View(table, u), w, data) else View(table, u)
  {
    var w := MergeTenantWhere(where, tenant);
    forall id | id in table
      ensures Selects(w, table[id]) ==> Owns(tenant, table[id]) && (Owns(u, table[id] + data) <==> Owns(u, table[id]))
    {
      RewriteMeaning(table[id], where, tenant);
    }
  }

  lemma ViewOfDeleted(table: Table, where: Option<Where>, tenant: string, u: string)
    requires tenant != ""
    ensures var w := MergeTenantWhere(where, tenant);
            View(Deleted(table, w), u) == if u == tenant then Deleted(View(table, u), w) else View(table, u)
  {
    var w := MergeTenantWhere(where, tenant);
    forall id | id in table
      ensures Selects(w, table[id]) ==> Owns(tenant, table[id])
    {
      RewriteMeaning(table[id], where, tenant);
    }
  }

  lemma {:induction false} ViewOfInserted(table: Table, ids: seq<string>, rows: seq<Row>, tenant: string, u: string)
    requires |ids| == |rows| && forall i :: 0 <= i < |rows| ==> ids[i] !in table && Owns(tenant, rows[i])
    ensures View(Inserted(table, ids, rows), u) == if u == tenant then Inserted(View(table, u), ids, rows)
                                                   else View(table, u)
    ensures forall id :: id in Inserted(table, ids, rows) && id !in table ==>
              Owns(tenant, Inserted(table, ids, rows)[id])
  {
    if ids != [] {
      var n := |ids| - 1;
      ViewOfInserted(table, ids[..n], rows[..n], tenant, u);
      ViewOfPut(Inserted(table, ids[..n], rows[..n]), ids[n], rows[n], tenant, u);
    }
  }

  lemma ViewOfPut(table: Table, id: string, row: Row, tenant: string, u: string)
    requires Owns(tenant, row) && (id in table ==> Owns(tenant, table[id]))
    ensures View(table[id := row], u) == if u == tenant then View(table, u)[id := row] else View(table, u)
  {
  }

  lemma CanInsertInView(table: Table, ids: seq<string>, rows: seq<Row>, u: string)
    requires forall i :: 0 <= i < |ids| ==> ids[i] !in table
    ensures CanInsert(View(table, u), ids, rows) <==> CanInsert(table, ids, rows)
  {
  }

  lemma ViewOfInsert(table: Table, ids: seq<string>, rows: seq<Row>, tenant: string, u: string)
    requires forall i :: 0 <= i < |rows| ==> Owns(tenant, rows[i])
    ensures u != tenant ==> View(Insert(table, ids, rows), u) == View(table, u)
    ensures u == tenant && (forall i :: 0 <= i < |ids| ==> ids[i] !in table) ==>
              View(Insert(table, ids, rows), u) == Insert(View(table, u), ids, rows)
  {
    if CanInsert(table, ids, rows) {
      ViewOfInserted(table, ids, rows, tenant, u);
    }
    if forall i :: 0 <= i < |ids| ==> ids[i] !in table {
      CanInsertInView(table, ids, rows, u);
    }
  }

  lemma StampOwns(row: Row, tenant: string)
    requires KeepsTenant(row, tenant)
    ensures Owns(tenant, Stamp(row, tenant))
  {
  }

  /** Stamping decides the tenant column alone, and only where none was written. */
  lemma StampKeepsColumns(row: Row, tenant: string, name: string)
    ensures Column(Stamp(row, tenant), name)
         == if name == TENANT && name !in row then Some(tenant) else Column(row, name)
  {
  }

  lemma CreatedRowsAreOwned(r: Request)
    requires Polite(r) && (r.op == Create || r.op == CreateMany)
    ensures var rows := Entries(Scoped(r.op, r.args, r.tenant).data);
            forall i :: 0 <= i < |rows| ==> Owns(r.tenant, rows[i])
  {
    var given := Entries(r.args.data);
    forall i | 0 <= i < |given|
      ensures Owns(r.tenant, Stamp(given[i], r.tenant))
    {
      StampOwns(given[i], r.tenant);
    }
  }

  predicate FreshIds(table: Table, ids: seq<string>) {
    forall i :: 0 <= i < |ids| ==> ids[i] !in table
  }

  /** One polite request leaves every other tenant's rows as they are and acts on its own tenant's rows as if
      the table held nothing else. */
  lemma StepStaysInside(table: Table, r: Request, u: string)
    requires Polite(r)
    ensures u != r.tenant ==> View(Step(table, r), u) == View(table, u)
    ensures u == r.tenant && FreshIds(table, r.ids) ==> View(Step(table, r), u) == Step(View(table, u), r)
  {
    if r.op == UpdateMany {
      UpdateStaysInside(table, r, u);
    } else if r.op == DeleteMany {
      ViewOfDeleted(table, r.args.where, r.tenant, u);
    } else if r.op == Create || r.op == CreateMany {
      CreateStaysInside(table, r, u);
    }
  }

  lemma UpdateStaysInside(table: Table, r: Request, u: string)
    requires Polite(r) && r.op == UpdateMany
    ensures u != r.tenant ==> View(Step(table, r), u) == View(table, u)
    ensures u == r.tenant ==> View(Step(table, r), u) == Step(View(table, u), r)
  {
    var data := DataRow(r.args.data);
    assert r.args.data.One? ==> Entries(r.args.data)[0] == data;
    ViewOfUpdated(table, r.args.where, data, r.tenant, u);
  }

  lemma CreateStaysInside(table: Table, r: Request, u: string)
    requires Polite(r) && (r.op == Create || r.op == CreateMany)
    ensures u != r.tenant ==> View(Step(table, r), u) == View(table, u)
    ensures u == r.tenant && FreshIds(table, r.ids) ==> View(Step(table, r), u) == Step(View(table, u), r)
  {
    CreatedRowsAreOwned(r);
    ViewOfInsert(table, r.ids, Entries(Scoped(r.op, r.args, r.tenant).data), r.tenant, u);
  }

  /** The requests of one tenant, in order. */
  function Own(requests: seq<Request>, u: string): seq<Request> {
    if requests == [] then []
    else
      var front, last := Own(requests[..|requests| - 1], u), requests[|requests| - 1];
      if last.tenant == u then front + [last] else front
  }

  /** The database hands out keys that are not in use. */
  predicate FreshRun(table: Table, requests: seq<Request>) {
    requests == [] ||
    (var front := requests[..|requests| - 1];
     FreshRun(table, front) && FreshIds(Run(table, front), requests[|requests| - 1].ids))
  }

  /** Over any run of polite requests of any tenants, one tenant's rows end up exactly as if only its own
      requests had run, against its own rows alone. */
  lemma {:induction false} RunsDoNotInterfere(table: Table, requests: seq<Request>, u: string)
    requires (forall i :: 0 <= i < |requests| ==> Polite(requests[i])) && FreshRun(table, requests)
    ensures View(Run(table, requests), u) == Run(View(table, u), Own(requests, u))
    decreases |requests|
  {
    if requests != [] {
      var front, last := requests[..|requests| - 1], requests[|requests| - 1];
      RunsDoNotInterfere(table, front, u);
      StepStaysInside(Run(table, front), last, u);
      var own := Own(front, u);
      assert (own + [last])[..|own|] == own;
    }
  }

  /** A rewritten read finds exactly what the caller's clause finds among the tenant's own rows. */
  lemma ReadsSeeOwnRows(table: Table, r: Request)
    requires r.tenant != "" && (ReadMany(r.op) || r.op == FindUnique || r.op == FindUniqueOrThrow)
    ensures Found(table, Scoped(r.op, r.args, r.tenant).where) == Found(View(table, r.tenant), r.args.where)
  {
    forall id | id in table
      ensures Selects(MergeTenantWhere(r.args.where, r.tenant), table[id]) <==>
              Selects(r.args.where, table[id]) && Owns(r.tenant, table[id])
    {
      RewriteMeaning(table[id], r.args.where, r.tenant);
    }
  }

  // ---- The operations whose clause is not rewritten ----

  predicate Foreign(row: Row, tenant: string) {
    TENANT in row && row[TENANT] != tenant
  }

  predicate OthersUnchanged(before: Table, after: Table, tenant: string) {
    && (forall id :: id in before && Foreign(before[id], tenant) ==> id in after && after[id] == before[id])
    && (forall id :: id in after && Foreign(after[id], tenant) ==> id in before && before[id] == after[id])
  }

  /** The row the query selects belongs to another tenant. */
  predicate HitsForeign(table: Table, r: Request) {
    Targets(table, r.args) && Foreign(table[r.args.key], r.tenant)
  }

  lemma RemovedSparesIff(table: Table, key: string, tenant: string)
    requires key in table
    ensures OthersUnchanged(table, table - {key}, tenant) <==> !Foreign(table[key], tenant)
  {
    assert key !in table - {key};
  }

  lemma DeleteRuns(table: Table, r: Request) returns (after: Table)
    requires r.op == Delete
    ensures after == Step(table, r) && after == if Targets(table, r.args) then table - {r.args.key} else table
  {
    after := Step(table, r);
  }

  /** delete spares the other tenants' rows in a table if and only if the row it selects is not one of them. */
  lemma DeleteSparesOthersIff(table: Table, r: Request)
    requires r.op == Delete
    ensures OthersUnchanged(table, Step(table, r), r.tenant) <==> !HitsForeign(table, r)
  {
    var after := DeleteRuns(table, r);
    if Targets(table, r.args) {
      RemovedSparesIff(table, r.args.key, r.tenant);
    }
  }

  lemma UpdatedSparesIff(table: Table, key: string, data: Row, tenant: string)
    requires key in table && KeepsTenant(data, tenant)
    ensures OthersUnchanged(table, UpdatedAt(table, key, data), tenant) <==>
            (Foreign(table[key], tenant) ==> table[key] + data == table[key])
  {
    var after := UpdatedAt(table, key, data);
    assert after[key] == table[key] + data;
    assert Foreign(after[key], tenant) ==> Foreign(table[key], tenant);
  }

  /** update, with data that do not move a row to another tenant, spares them if and only if the row it selects is
      not one of them or already holds the data. */
  lemma UpdateSparesOthersIff(table: Table, r: Request)
    requires r.op == Update && KeepsTenant(DataRow(r.args.data), r.tenant)
    ensures OthersUnchanged(table, Step(table, r), r.tenant) <==>
            (HitsForeign(table, r) ==> table[r.args.key] + DataRow(r.args.data) == table[r.args.key])
  {
    UpdateRuns(table, r);
    if Targets(table, r.args) {
      UpdatedSparesIff(table, r.args.key, DataRow(r.args.data), r.tenant);
    }
  }

  lemma UpdateRuns(table: Table, r: Request)
    requires r.op == Update
    ensures Step(table, r) == if Targets(table, r.args) then UpdatedAt(table, r.args.key, DataRow(r.args.data))
                              else table
  {
  }

  lemma {:induction false} InsertedSparesOthers(table: Table, ids: seq<string>, rows: seq<Row>, tenant: string)
    requires |ids| == |rows| && forall i :: 0 <= i < |rows| ==> ids[i] !in table && Owns(tenant, rows[i])
    ensures OthersUnchanged(table, Inserted(table, ids, rows), tenant)
  {
    if ids != [] {
      InsertedSparesOthers(table, ids[..|ids| - 1], rows[..|ids| - 1], tenant);
    }
  }

  /** upsert likewise: only its create data are stamped, its clause is not. */
  lemma UpsertSparesOthersIff(table: Table, r: Request)
    requires r.op == Upsert && KeepsTenant(r.args.update, r.tenant)
    requires r.args.create.Some? ==> KeepsTenant(r.args.create.value, r.tenant)
    ensures OthersUnchanged(table, Step(table, r), r.tenant) <==>
            (HitsForeign(table, r) ==> table[r.args.key] + r.args.update == table[r.args.key])
  {
    if Targets(table, r.args) {
      UpdatedSparesIff(table, r.args.key, r.args.update, r.tenant);
    } else {
      var row := StampOption(r.args.create, r.tenant);
      StampOwns(if r.args.create.Some? then r.args.create.value else map[], r.tenant);
      if CanInsert(table, r.ids, [row]) {
        InsertedSparesOthers(table, r.ids, [row], r.tenant);
      }
    }
  }

  /** What a query does to the row it selects. */
  function Overwrites(r: Request): Option<Row> {
    match r.op
    case Update => Some(DataRow(r.args.data))
    case Upsert => Some(r.args.update)
    case _ => None
  }

  predicate SingleRowQuery(r: Request) {
    && r.op in {Update, Delete, Upsert}
    && (Overwrites(r).Some? ==> KeepsTenant(Overwrites(r).value, r.tenant))
    && (r.op == Upsert && r.args.create.Some? ==> KeepsTenant(r.args.create.value, r.tenant))
  }

  /** Such a query does something to a row: it selects it, and deletes it or changes it. */
  predicate Touches(r: Request, row: Row) {
    Selects(r.args.where, row) && (Overwrites(r).Some? ==> row + Overwrites(r).value != row)
  }

  lemma SparesIff(table: Table, r: Request)
    requires SingleRowQuery(r)
    ensures OthersUnchanged(table, Step(table, r), r.tenant) <==>
            !(r.args.key in table && Foreign(table[r.args.key], r.tenant) && Touches(r, table[r.args.key]))
  {
    match r.op
    case Delete => DeleteSparesOthersIff(table, r);
    case Update => UpdateSparesOthersIff(table, r);
    case Upsert => UpsertSparesOthersIff(table, r);
  }

  /** The clause decides: a query spares other tenants in every table if and only if there is no foreign row at all
      that it would select and delete or change. */
  lemma ClauseSparesOthersIff(r: Request)
    requires SingleRowQuery(r)
    ensures (forall table: Table :: OthersUnchanged(table, Step(table, r), r.tenant)) <==>
            forall row: Row :: Foreign(row, r.tenant) ==> !Touches(r, row)
  {
    forall table: Table
      ensures OthersUnchanged(table, Step(table, r), r.tenant) <==>
              !(r.args.key in table && Foreign(table[r.args.key], r.tenant) && Touches(r, table[r.args.key]))
    {
      SparesIff(table, r);
    }
    forall row: Row
      ensures Foreign(row, r.tenant) && Touches(r, row) ==>
                exists table: Table :: !OthersUnchanged(table, Step(table, r), r.tenant)
    {
      var table: Table := map[r.args.key := row];
      assert r.args.key in table && table[r.args.key] == row;
    }
  }

  /** The clause names the caller's tenant. */
  predicate Pinned(where: Option<Where>, tenant: string) {
    && where.Some? && TENANT in where.value.fields
    && where.value.fields[TENANT] == Equals(tenant)
  }

  /** The test a caller can make before the call: a clause that names the caller's own tenant is always safe. */
  lemma PinnedClauseIsSafe(table: Table, r: Request)
    requires SingleRowQuery(r) && Pinned(r.args.where, r.tenant)
    ensures OthersUnchanged(table, Step(table, r), r.tenant)
  {
    SparesIff(table, r);
    if r.args.key in table && Selects(r.args.where, table[r.args.key]) {
      assert Decide(r.args.where.value.fields[TENANT], Column(table[r.args.key], TENANT)) == True;
    }
  }

  /** Without other filters the clause is never safe: tenant a deletes tenant b's row by its key. */
  lemma DeleteReachesOtherTenant(r: Request, row: Row)
    requires r.op == Delete && r.args.where.None? && Foreign(row, r.tenant)
    ensures var table: Table := map[r.args.key := row];
            View(table, row[TENANT]) == table && Step(table, r) == map[]
  {
    var table: Table := map[r.args.key := row];
    assert Targets(table, r.args);
    assert table - {r.args.key} == map[];
  }

  lemma DeleteByIdExample()
    ensures var table: Table := map["7" := map[TENANT := "b", "total" := "100"]];
            var r := Request("a", Delete, Args("7", None, Absent, None, map[]), []);
            "7" in View(table, "b") && Step(table, r) == map[]
  {
  }

  // ---- The logic of clauses ----

  function Only(all: Clauses, any: Clauses, none: Clauses): Where {
    Where(map[], all, any, none)
  }

  /** AND is true when all parts are, and false when one is. */
  lemma AndLogic(row: Row, list: seq<Where>)
    ensures var w := Only(Listed(list), Omitted, Omitted);
            && (Matches(row, w) <==> forall i :: 0 <= i < |list| ==> Matches(row, list[i]))
            && (Refuses(row, w) <==> exists i :: 0 <= i < |list| && Refuses(row, list[i]))
  {
  }

  /** OR is true when one part is, and false when all are. */
  lemma OrLogic(row: Row, list: seq<Where>)
    ensures var w := Only(Omitted, Listed(list), Omitted);
            && (Matches(row, w) <==> exists i :: 0 <= i < |list| && Matches(row, list[i]))
            && (Refuses(row, w) <==> forall i :: 0 <= i < |list| ==> Refuses(row, list[i]))
  {
  }

  /** NOT is true when all parts are false, and false when one is true; an unknown part leaves it unknown. */
  lemma NotLogic(row: Row, list: seq<Where>)
    ensures var w := Only(Omitted, Omitted, Listed(list));
            && (Matches(row, w) <==> forall i :: 0 <= i < |list| ==> Refuses(row, list[i]))
            && (Refuses(row, w) <==> exists i :: 0 <= i < |list| && Matches(row, list[i]))
  {
  }

  /** A condition on one column: equality with a null is unknown, so neither it nor its negation holds. */
  lemma ColumnLogic(row: Row, name: string, value: string)
    ensures var w := Where(map[name := Equals(value)], Omitted, Omitted, Omitted);
            && (Matches(row, w) <==> name in row && row[name] == value)
            && (Refuses(row, w) <==> name in row && row[name] != value)
  {
    var fields := map[name := Equals(value)];
    assert name in fields;
  }

  /** No clause is both true and false of a row. */
  lemma {:induction false} NeverBoth(row: Row, w: Where)
    ensures !(Matches(row, w) && Refuses(row, w))
    decreases w
  {
    if w.all.Listed? {
      forall i | 0 <= i < |w.all.list|
        ensures !(Matches(row, w.all.list[i]) && Refuses(row, w.all.list[i]))
      {
        NeverBoth(row, w.all.list[i]);
      }
    }
    if w.any.Listed? {
      forall i | 0 <= i < |w.any.list|
        ensures !(Matches(row, w.any.list[i]) && Refuses(row, w.any.list[i]))
      {
        NeverBoth(row, w.any.list[i]);
      }
    }
    if w.none.Listed? {
      forall i | 0 <= i < |w.none.list|
        ensures !(Matches(row, w.none.list[i]) && Refuses(row, w.none.list[i]))
      {
        NeverBoth(row, w.none.list[i]);
      }
    }
  }

  // ---- What a scoped request does to the table ----

  /** A scoped updateMany writes its data into exactly the tenant's rows that the caller's clause selects. */
  lemma UpdateManyIsExact(table: Table, r: Request)
    requires r.op == UpdateMany && r.tenant != "" && r.args.data.One?
    ensures Step(table, r).Keys == table.Keys
    ensures forall id :: id in table ==>
              Step(table, r)[id] == if Selects(r.args.where, table[id]) && Owns(r.tenant, table[id])
                                    then table[id] + r.args.data.row else table[id]
  {
    forall id | id in table
      ensures Selects(MergeTenantWhere(r.args.where, r.tenant), table[id]) <==>
              Selects(r.args.where, table[id]) && Owns(r.tenant, table[id])
    {
      RewriteMeaning(table[id], r.args.where, r.tenant);
    }
  }

  /** A scoped deleteMany removes exactly those rows. */
  lemma DeleteManyIsExact(table: Table, r: Request)
    requires r.op == DeleteMany && r.tenant != ""
    ensures forall id :: id in Step(table, r) <==>
              id in table && !(Selects(r.args.where, table[id]) && Owns(r.tenant, table[id]))
    ensures forall id :: id in Step(table, r) ==> Step(table, r)[id] == table[id]
  {
    forall id | id in table
      ensures Selects(MergeTenantWhere(r.args.where, r.tenant), table[id]) <==>
              Selects(r.args.where, table[id]) && Owns(r.tenant, table[id])
    {
      RewriteMeaning(table[id], r.args.where, r.tenant);
    }
  }

  predicate Distinct(ids: seq<string>) {
    forall i, j :: 0 <= i < j < |ids| ==> ids[i] != ids[j]
  }

  lemma {:induction false} InsertedElsewhere(table: Table, ids: seq<string>, rows: seq<Row>, id: string)
    requires |ids| == |rows| && id !in ids
    ensures id in Inserted(table, ids, rows) <==> id in table
    ensures id in table ==> Inserted(table, ids, rows)[id] == table[id]
  {
    if ids != [] {
      var n := |ids| - 1;
      assert id != ids[n];
      InsertedElsewhere(table, ids[..n], rows[..n], id);
    }
  }

  lemma {:induction false} InsertedAt(table: Table, ids: seq<string>, rows: seq<Row>, i: nat)
    requires |ids| == |rows| && Distinct(ids) && i < |ids|
    ensures ids[i] in Inserted(table, ids, rows) && Inserted(table, ids, rows)[ids[i]] == rows[i]
  {
    var n := |ids| - 1;
    if i < n {
      InsertedAt(table, ids[..n], rows[..n], i);
    }
  }

  /** What a list of new rows leaves: each under its own key and nothing else changed, or no change at all. */
  ghost predicate Stores(table: Table, ids: seq<string>, rows: seq<Row>, after: Table)
    requires |ids| == |rows|
  {
    && (forall i :: 0 <= i < |rows| ==> ids[i] in after && after[ids[i]] == rows[i])
    && (forall id :: id !in ids ==> (id in after <==> id in table))
    && (forall id :: id in table && id !in ids ==> after[id] == table[id])
  }

  lemma InsertIsExact(table: Table, ids: seq<string>, rows: seq<Row>)
    requires |ids| == |rows| && forall i :: 0 <= i < |rows| ==> TENANT in rows[i]
    ensures if FreshIds(table, ids) && Distinct(ids) then Stores(table, ids, rows, Insert(table, ids, rows))
            else Insert(table, ids, rows) == table
  {
    if FreshIds(table, ids) && Distinct(ids) {
      forall i | 0 <= i < |rows|
        ensures ids[i] in Inserted(table, ids, rows) && Inserted(table, ids, rows)[ids[i]] == rows[i]
      {
        InsertedAt(table, ids, rows, i);
      }
      forall id | id !in ids
        ensures id in Inserted(table, ids, rows) <==> id in table
        ensures id in table ==> Inserted(table, ids, rows)[id] == table[id]
      {
        InsertedElsewhere(table, ids, rows, id);
      }
    }
  }

  lemma CreateManyInserts(table: Table, r: Request, rows: seq<Row>) returns (stamped: seq<Row>)
    requires r.op == CreateMany && r.args.data == Many(rows)
    ensures |stamped| == |rows| && Step(table, r) == Insert(table, r.ids, stamped)
    ensures forall i :: 0 <= i < |rows| ==> stamped[i] == Stamp(rows[i], r.tenant)
  {
    stamped := StampAll(rows, r.tenant);
  }

  lemma StampAsMap(row: Row, tenant: string)
    ensures Stamp(row, tenant) == map[TENANT := tenant] + row && TENANT in Stamp(row, tenant)
  {
  }

  /** A scoped createMany stores every row of its list, with the caller's tenant where it names none, under its own
      new key, and changes no other row; a key that is in use, or given twice, leaves the table as it was. */
  lemma CreateManyIsExact(table: Table, r: Request, rows: seq<Row>) returns (stamped: seq<Row>)
    requires r.op == CreateMany && r.tenant != "" && r.args.data == Many(rows) && |r.ids| == |rows|
    ensures |stamped| == |rows|
    ensures forall i :: 0 <= i < |rows| ==> stamped[i] == map[TENANT := r.tenant] + rows[i]
    ensures if FreshIds(table, r.ids) && Distinct(r.ids) then Stores(table, r.ids, stamped, Step(table, r))
            else Step(table, r) == table
  {
    stamped := CreateManyInserts(table, r, rows);
    forall i | 0 <= i < |rows|
      ensures stamped[i] == map[TENANT := r.tenant] + rows[i] && TENANT in stamped[i]
    {
      StampAsMap(rows[i], r.tenant);
    }
    InsertIsExact(table, r.ids, stamped);
  }

  lemma InsertOne(table: Table, id: string, row: Row)
    ensures Insert(table, [id], [row]) == if id !in table && TENANT in row then table[id := row] else table
  {
    var ids, rows := [id], [row];
    assert ids[..|ids| - 1] == [] && rows[..|ids| - 1] == [];
    assert Inserted(table, ids, rows) == table[id := row];
    assert CanInsert(table, ids, rows) <==> ids[0] !in table && TENANT in rows[0];
  }

  /** A scoped create stores its one row, stamped, under a new key. */
  lemma CreateIsExact(table: Table, r: Request, row: Row, id: string)
    requires r.op == Create && r.tenant != "" && r.args.data == One(row) && r.ids == [id]
    ensures Step(table, r) == if id !in table then table[id := map[TENANT := r.tenant] + row] else table
  {
    StampAsMap(row, r.tenant);
    InsertOne(table, id, Stamp(row, r.tenant));
  }

  /** An upsert that finds no row to update stores its create data, stamped with the caller's tenant. */
  lemma UpsertCreatesOwnRow(table: Table, r: Request, row: Row, id: string)
    requires r.op == Upsert && r.tenant != "" && r.args.create == Some(row) && r.ids == [id] && id !in table
    requires !Targets(table, r.args)
    ensures Step(table, r) == table[id := map[TENANT := r.tenant] + row]
  {
    StampAsMap(row, r.tenant);
    InsertOne(table, id, Stamp(row, r.tenant));
  }

  /** update, delete and upsert act on the one row of their key if their own clause selects it, whoever owns it. */
  lemma SingleRowIsExact(table: Table, r: Request)
    requires r.op in {Update, Delete, Upsert} && r.args.key in table && Selects(r.args.where, table[r.args.key])
    ensures var row := table[r.args.key];
            match r.op
            case Update => Step(table, r) == table[r.args.key := row + DataRow(r.args.data)]
            case Delete => Step(table, r) == table - {r.args.key}
            case Upsert => Step(table, r) == table[r.args.key := row + r.args.update]
  {
  }

  lemma RunOne(table: Table, r: Request)
    ensures Run(table, [r]) == Step(table, r)
  {
    assert [r][..0] == [];
    assert Run(table, []) == table;
  }
}
