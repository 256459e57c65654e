/** Eager loading as a function of the builder's contents.

    `Run` is what `sqlAll` computes: one batched child query per requested edge, whose rows are
    handed out through a foreign-key index.  `LazyNodes` is the reference: every parent asks for
    its own children with its own query.  `Touch` is what a run leaves behind in the builder. */
module EagerLoad {
  import opened Wrappers
  import opened RowSet
  import opened Schemas

  /** The contents of a query builder, nested edge queries included. `edges[j]` is the nested query
      of the entity's j-th edge, if that edge was requested. */
  datatype Query = Query(
    table: TableName,
    preds: seq<Pred>,
    order: seq<Row -> int>,
    limit: Option<nat>,
    offset: Option<nat>,
    fields: seq<Column>,
    withFKs: bool,
    edges: seq<Option<Query>>)

  datatype EdgeValue = NotLoaded | Many(nodes: seq<Node>) | One(node: Option<Node>)

  /** A loaded entity: the cells and foreign keys that were fetched, and its edges. */
  datatype Node = Node(id: Id, cells: map<Column, Value>, fks: map<Column, Id>, edges: seq<EdgeValue>)

  datatype Error =
    | InvalidField(name: Column)
    | ForeignKeyIsNil(column: Column, id: Id)
    | UnexpectedForeignKey(column: Column, id: Id)
    | NotFound
    | NotSingular
    | ColumnsDoNotMatch(columns: nat)

  /** Nested queries match the schema's edges; only the loader of a to-many edge ever asks its
      nested query for foreign keys. */
  ghost predicate WellFormed(sc: Schema, q: Query) {
    && |q.edges| == |sc.Of(q.table).edges|
    && forall j :: 0 <= j < |q.edges| && q.edges[j].Some? ==>
         && q.edges[j].value.table == sc.Of(q.table).edges[j].target
         && (sc.Of(q.table).edges[j].kind.ToOne? ==> !q.edges[j].value.withFKs)
         && WellFormed(sc, q.edges[j].value)
  }

  // ----- One level of a query -----

  function Given(n: Option<nat>): nat {
    if n.Some? then n.value else 0
  }

  function FetchRows(db: Database, q: Query, extra: seq<Pred>): seq<Row> {
    Select(db.Rows(q.table), q.preds + extra, q.order, Given(q.offset), Given(q.limit))
  }

  /** The first requested field that is not a column of the table. */
  function BadField(e: Entity, fields: seq<Column>): Option<Column> {
    if fields == [] then None
    else if fields[0] in e.columns || fields[0] in e.foreignKeys then BadField(e, fields[1..])
    else Some(fields[0])
  }

  function WithoutId(fields: seq<Column>): seq<Column> {
    if fields == [] then []
    else (if fields[0] == "id" then [] else [fields[0]]) + WithoutId(fields[1..])
  }

  predicate WantsToOne(e: Entity, edges: seq<Option<Query>>)
    requires |edges| == |e.edges|
  {
    exists j :: 0 <= j < |edges| && edges[j].Some? && e.edges[j].kind.ToOne?
  }

  /** The columns `querySpec` and `sqlAll` ask the database for. */
  function ColumnList(e: Entity, fields: seq<Column>, fks: bool): seq<Column> {
    (if fields == [] then e.columns else ["id"] + WithoutId(fields)) + (if fks then e.foreignKeys else [])
  }

  function Columns(e: Entity, q: Query, fk: bool): seq<Column>
    requires |q.edges| == |e.edges|
  {
    ColumnList(e, q.fields, q.withFKs || fk || WantsToOne(e, q.edges))
  }

  function Project(columns: seq<Column>, r: Row, edges: nat): Node {
    Node(r.id,
         map c | c in r.cells && c in columns :: r.cells[c],
         map c | c in r.fks && c in columns :: r.fks[c],
         seq(edges, _ => NotLoaded))
  }

  function ProjectAll(columns: seq<Column>, rows: seq<Row>, edges: nat): seq<Node> {
    seq(|rows|, k requires 0 <= k < |rows| => Project(columns, rows[k], edges))
  }

  /** The entities of one level, before any edge is loaded. */
  function Base(sc: Schema, db: Database, q: Query, extra: seq<Pred>, fk: bool): seq<Node>
    requires |q.edges| == |sc.Of(q.table).edges|
  {
    ProjectAll(Columns(sc.Of(q.table), q, fk), FetchRows(db, q, extra), |q.edges|)
  }

  // ----- One edge -----

  function Ids(nodes: seq<Node>): seq<Id> {
    seq(|nodes|, k requires 0 <= k < |nodes| => nodes[k].id)
  }

  /** The distinct non-null keys of the nodes, in the order they are met. */
  function Keys(nodes: seq<Node>, column: Column): seq<Id> {
    if nodes == [] then []
    else
      var n := |nodes| - 1;
      var before := Keys(nodes[..n], column);
      if column in nodes[n].fks && nodes[n].fks[column] !in before then before + [nodes[n].fks[column]] else before
  }

  /** The nodes whose foreign key is `id`, in order. */
  function ByFk(nodes: seq<Node>, column: Column, id: Id): seq<Node> {
    if nodes == [] then []
    else
      var n := |nodes| - 1;
      ByFk(nodes[..n], column, id)
      + (if column in nodes[n].fks && nodes[n].fks[column] == id then [nodes[n]] else [])
  }

  /** The last of the nodes whose identifier is `id`. */
  function LastById(nodes: seq<Node>, id: Id): Option<Node> {
    if nodes == [] then None
    else
      var n := |nodes| - 1;
      if nodes[n].id == id then Some(nodes[n]) else LastById(nodes[..n], id)
  }

  /** The predicate a loader appends to the nested query. */
  function EdgePred(e: Edge, parents: seq<Node>): Pred {
    if e.kind.ToMany? then FkIn(e.column, Ids(parents)) else IdIn(Keys(parents, e.column))
  }

  /** A to-one edge none of whose parents has a key runs no query. */
  predicate Skipped(e: Edge, nested: Option<Query>, parents: seq<Node>) {
    nested.None? || (e.kind.ToOne? && Keys(parents, e.column) == [])
  }

  function Attach(e: Edge, nested: Option<Query>, parent: Node, children: seq<Node>): EdgeValue {
    if nested.None? then NotLoaded
    else if e.kind.ToMany? then Many(ByFk(children, e.column, parent.id))
    else One(if e.column in parent.fks then LastById(children, parent.fks[e.column]) else None)
  }

  // ----- The whole tree -----

  /** `Run` of the builder `q` after `extra` was added to its predicates and, if `fk`, the foreign
      keys were requested. */
  function Run(sc: Schema, db: Database, q: Query, extra: seq<Pred>, fk: bool): (r: Result<seq<Node>, Error>)
    requires WellFormed(sc, q)
    ensures r.Err? ==> r.error.InvalidField?
    ensures r.Ok? ==> |r.value| == |FetchRows(db, q, extra)|
    decreases q, 2, 0
  {
    var bad := BadField(sc.Of(q.table), q.fields);
    if bad.Some? then Err(InvalidField(bad.value))
    else
      var base := Base(sc, db, q, extra, fk);
      if base == [] then Ok([])
      else
        match Load(sc, db, q, base, |q.edges|)
        case Err(e) => Err(e)
        case Ok(children) => Ok(Assemble(sc.Of(q.table), q.edges, base, children))
  }

  /** The child nodes of the first `n` edges, or the first error met while loading them. */
  function Load(sc: Schema, db: Database, q: Query, base: seq<Node>, n: nat): (r: Result<seq<seq<Node>>, Error>)
    requires WellFormed(sc, q) && n <= |q.edges|
    ensures r.Err? ==> r.error.InvalidField?
    ensures r.Ok? ==> |r.value| == n
    decreases q, 1, n
  {
    if n == 0 then Ok([])
    else
      match Load(sc, db, q, base, n - 1)
      case Err(e) => Err(e)
      case Ok(before) =>
        match LoadEdge(sc, db, q, base, n - 1)
        case Err(e) => Err(e)
        case Ok(children) => Ok(before + [children])
  }

  function LoadEdge(sc: Schema, db: Database, q: Query, base: seq<Node>, j: nat): (r: Result<seq<Node>, Error>)
    requires WellFormed(sc, q) && j < |q.edges|
    ensures r.Err? ==> r.error.InvalidField?
    decreases q, 0, 0
  {
    var e := sc.Of(q.table).edges[j];
    if Skipped(e, q.edges[j], base) then Ok([])
    else Run(sc, db, q.edges[j].value, [EdgePred(e, base)], e.kind.ToMany?)
  }

  function AttachEdges(e: Entity, edges: seq<Option<Query>>, parent: Node, children: seq<seq<Node>>): seq<EdgeValue>
    requires |edges| == |e.edges| == |children|
  {
    seq(|edges|, j requires 0 <= j < |edges| => Attach(e.edges[j], edges[j], parent, children[j]))
  }

  function Assemble(e: Entity, edges: seq<Option<Query>>, base: seq<Node>, children: seq<seq<Node>>): (r: seq<Node>)
    requires |edges| == |e.edges| == |children|
    ensures |r| == |base|
  {
    seq(|base|, k requires 0 <= k < |base| => base[k].(edges := AttachEdges(e, edges, base[k], children)))
  }

  /** What the builder holds after the run: the loaders append their predicate to every nested
      query they execute, and nested runs do the same further down; an error stops it. */
  ghost function Touch(sc: Schema, db: Database, q: Query, extra: seq<Pred>, fk: bool): (r: Query)
    requires WellFormed(sc, q)
    ensures |r.edges| == |q.edges| && r.table == q.table
    ensures forall j :: 0 <= j < |q.edges| ==> r.edges[j].Some? == q.edges[j].Some?
    decreases q, 1
  {
    var base := Base(sc, db, q, extra, fk);
    var runs := BadField(sc.Of(q.table), q.fields).None? && base != [];
    q.(preds := q.preds + extra,
       withFKs := q.withFKs || fk,
       edges := if runs then seq(|q.edges|, j requires 0 <= j < |q.edges| => TouchEdge(sc, db, q, base, j))
                else q.edges)
  }

  ghost function TouchEdge(sc: Schema, db: Database, q: Query, base: seq<Node>, j: nat): (r: Option<Query>)
    requires WellFormed(sc, q) && j < |q.edges|
    ensures r.Some? == q.edges[j].Some?
    decreases q, 0
  {
    var e := sc.Of(q.table).edges[j];
    if Load(sc, db, q, base, j).Err? || Skipped(e, q.edges[j], base) then q.edges[j]
    else Some(Touch(sc, db, q.edges[j].value, [EdgePred(e, base)], e.kind.ToMany?))
  }

  // ----- The reference: a query per parent -----

  ghost function LazyNode(sc: Schema, db: Database, q: Query, fk: bool, r: Row): Node
    requires WellFormed(sc, q)
    decreases q, 1
  {
    Project(Columns(sc.Of(q.table), q, fk), r, |q.edges|).(
      edges := seq(|q.edges|, j requires 0 <= j < |q.edges| => LazyEdge(sc, db, q, r, j)))
  }

  ghost function LazyEdge(sc: Schema, db: Database, q: Query, r: Row, j: nat): EdgeValue
    requires WellFormed(sc, q) && j < |q.edges|
    decreases q, 0
  {
    var e := sc.Of(q.table).edges[j];
    if q.edges[j].None? then NotLoaded
    else
      var n := q.edges[j].value;
      if e.kind.ToMany? then
        Many(LazyNodes(sc, db, n, true, FetchRows(db, n, [FkIn(e.column, [r.id])])))
      else if e.column !in r.fks then One(None)
      else
        var rows := FetchRows(db, n, [IdIn([r.fks[e.column]])]);
        One(if rows == [] then None else Some(LazyNode(sc, db, n, false, rows[|rows| - 1])))
  }

  ghost function LazyNodes(sc: Schema, db: Database, q: Query, fk: bool, rows: seq<Row>): seq<Node>
    requires WellFormed(sc, q)
    decreases q, 2
  {
    seq(|rows|, k requires 0 <= k < |rows| => LazyNode(sc, db, q, fk, rows[k]))
  }
}
