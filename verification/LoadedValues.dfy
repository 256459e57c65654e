/** What the entities returned by a run carry: the values of the rows they were read from, column by
    column, at every depth of the loaded edges. */
module LoadedValues {
  import opened Wrappers
  import opened RowSet
  import opened Schemas
  import opened EagerLoad
  import opened EagerLoadProofs

  /** Foreign keys are fetched if the builder or its loader asks for them or a to-one edge needs one. */
  ghost predicate KeysFetched(e: Entity, q: Query, fk: bool) {
    || q.withFKs || fk
    || exists j :: 0 <= j < |q.edges| && j < |e.edges| && q.edges[j].Some? && e.edges[j].kind.ToOne?
  }

  /** The column is selected, any column of the table if nothing was selected. */
  ghost predicate Selected(e: Entity, q: Query, c: Column) {
    if q.fields == [] then c in e.columns else c == "id" || c in q.fields
  }

  ghost predicate Fetched(e: Entity, q: Query, fk: bool, c: Column) {
    Selected(e, q, c) || (c in e.foreignKeys && KeysFetched(e, q, fk))
  }

  /** The node has the identifier of the row, its cells in the fetched columns and its keys in the
      fetched columns, with the row's values, and nothing else. */
  ghost predicate Shows(e: Entity, q: Query, fk: bool, node: Node, r: Row) {
    && node.id == r.id
    && (forall c :: c in node.cells <==> c in r.cells && Fetched(e, q, fk, c))
    && (forall c :: c in node.cells ==> node.cells[c] == r.cells[c])
    && (forall c :: c in node.fks <==> c in r.fks && Fetched(e, q, fk, c))
    && (forall c :: c in node.fks ==> node.fks[c] == r.fks[c])
  }

  /** The node shows a row of the table that satisfies the query's predicates.  Every node under a to-many
      edge shows, in the same sense, a row that refers to this one; the node under a to-one edge shows the
      row this one refers to; edges that were not requested are not loaded. */
  ghost predicate Faithful(sc: Schema, db: Database, q: Query, fk: bool, node: Node, r: Row)
    requires WellFormed(sc, q)
    decreases q, 1
  {
    && r in db.Rows(q.table) && (forall i :: 0 <= i < |q.preds| ==> Meets(q.preds[i], r))
    && Shows(sc.Of(q.table), q, fk, node, r)
    && |node.edges| == |q.edges|
    && forall j :: 0 <= j < |q.edges| ==> EdgeFaithful(sc, db, q, r, j, node.edges[j])
  }

  ghost predicate EdgeFaithful(sc: Schema, db: Database, q: Query, r: Row, j: nat, v: EdgeValue)
    requires WellFormed(sc, q) && j < |q.edges|
    decreases q, 0
  {
    var e := sc.Of(q.table).edges[j];
    if q.edges[j].None? then v == NotLoaded
    else if e.kind.ToMany? then
      v.Many? && forall i :: 0 <= i < |v.nodes| ==> ChildOf(sc, db, q.edges[j].value, v.nodes[i], e.column, r.id)
    else
      v.One? && (v.node.Some? ==> ParentOf(sc, db, q.edges[j].value, v.node.value, e.column, r))
  }

  /** The node shows a row that refers to `id`. */
  ghost predicate ChildOf(sc: Schema, db: Database, n: Query, node: Node, column: Column, id: Id)
    requires WellFormed(sc, n)
    decreases n, 2
  {
    exists r :: Faithful(sc, db, n, true, node, r) && RefersTo(r, column, id)
  }

  /** The node shows the row that `r` refers to. */
  ghost predicate ParentOf(sc: Schema, db: Database, n: Query, node: Node, column: Column, r: Row)
    requires WellFormed(sc, n)
    decreases n, 2
  {
    exists r' :: Faithful(sc, db, n, false, node, r') && RefersTo(r, column, r'.id)
  }

  ghost predicate RefersTo(r: Row, column: Column, id: Id) {
    column in r.fks && r.fks[column] == id
  }

  lemma {:induction false} SelectedFields(fields: seq<Column>, c: Column)
    ensures c in WithoutId(fields) <==> c in fields && c != "id"
  {
    if fields != [] {
      SelectedFields(fields[1..], c);
      assert c in fields <==> c == fields[0] || c in fields[1..];
    }
  }

  lemma FetchedExactly(e: Entity, q: Query, fk: bool, c: Column)
    requires |q.edges| == |e.edges|
    ensures c in Columns(e, q, fk) <==> Fetched(e, q, fk, c)
  {
    SelectedFields(q.fields, c);
    assert WantsToOne(e, q.edges) || q.withFKs || fk <==> KeysFetched(e, q, fk);
  }

  /** With a projection the identifier is fetched first and once, whether it was selected or not. */
  lemma IdFetchedOnce(e: Entity, fields: seq<Column>, fks: bool)
    requires fields != [] && "id" !in e.foreignKeys
    ensures var cs := ColumnList(e, fields, fks);
      cs != [] && cs[0] == "id" && forall i :: 1 <= i < |cs| ==> cs[i] != "id"
  {
    var cs, rest := ColumnList(e, fields, fks), WithoutId(fields);
    SelectedFields(fields, "id");
    forall i | 1 <= i < |cs| ensures cs[i] != "id" {
      assert if i - 1 < |rest| then cs[i] in rest else cs[i] in e.foreignKeys;
    }
  }

  /** Every node of a successful run shows the row fetched at its position. */
  lemma RunShows(sc: Schema, db: Database, q: Query, x: seq<Pred>, fk: bool, k: nat)
    requires WellFormed(sc, q) && Run(sc, db, q, x, fk).Ok? && k < |Run(sc, db, q, x, fk).value|
    ensures k < |FetchRows(db, q, x)|
    ensures Shows(sc.Of(q.table), q, fk, Run(sc, db, q, x, fk).value[k], FetchRows(db, q, x)[k])
  {
    var e, r, node := sc.Of(q.table), FetchRows(db, q, x)[k], Run(sc, db, q, x, fk).value[k];
    RunNodes(sc, db, q, x, fk);
    var b := Base(sc, db, q, x, fk)[k];
    assert node.(edges := []) == b.(edges := []);
    assert b == Project(Columns(e, q, fk), r, |q.edges|);
    hide Run, FetchRows, Base, WellFormed, Columns, Fetched;
    forall c ensures c in Columns(e, q, fk) <==> Fetched(e, q, fk, c) { FetchedExactly(e, q, fk, c); }
  }

  /** Every node of a successful run, with all that is loaded below it, is faithful to the database. */
  lemma {:induction false} RunFaithful(sc: Schema, db: Database, q: Query, x: seq<Pred>, fk: bool, k: nat)
    requires sc.Valid() && WellFormed(sc, q)
    requires Run(sc, db, q, x, fk).Ok? && k < |Run(sc, db, q, x, fk).value|
    ensures k < |FetchRows(db, q, x)|
    ensures Faithful(sc, db, q, fk, Run(sc, db, q, x, fk).value[k], FetchRows(db, q, x)[k])
    decreases q, 1
  {
    RunShows(sc, db, q, x, fk, k);
    var r, node := FetchRows(db, q, x)[k], Run(sc, db, q, x, fk).value[k];
    RowMeets(db, q, x, k);
    if q.edges != [] { RunEdge(sc, db, q, x, fk, 0, k); } else { RunNoEdges(sc, db, q, x, fk, k); }
    forall j | 0 <= j < |q.edges|
      ensures EdgeFaithful(sc, db, q, r, j, node.edges[j])
    {
      RunEdge(sc, db, q, x, fk, j, k);
      RunEdgeFaithful(sc, db, q, x, fk, j, k);
    }
    hide Run, FetchRows, Shows, WellFormed;
  }

  lemma RowMeets(db: Database, q: Query, x: seq<Pred>, k: nat)
    requires k < |FetchRows(db, q, x)|
    ensures var r := FetchRows(db, q, x)[k];
      r in db.Rows(q.table) && forall i :: 0 <= i < |q.preds| ==> Meets(q.preds[i], r)
  {
    var r, ps := FetchRows(db, q, x)[k], q.preds + x;
    assert r in FetchRows(db, q, x);
    WhereMeans(db.Rows(q.table), ps, q.order, Given(q.offset), Given(q.limit), r);
    assert forall i :: 0 <= i < |q.preds| ==> q.preds[i] == ps[i];
  }

  lemma RunNoEdges(sc: Schema, db: Database, q: Query, x: seq<Pred>, fk: bool, k: nat)
    requires WellFormed(sc, q) && q.edges == []
    requires Run(sc, db, q, x, fk).Ok? && k < |Run(sc, db, q, x, fk).value|
    ensures Run(sc, db, q, x, fk).value[k].edges == []
  {
    hide FetchRows;
  }

  ghost predicate ShowsSomeRow(sc: Schema, db: Database, q: Query, fk: bool, node: Node)
    requires WellFormed(sc, q)
  {
    exists r :: Faithful(sc, db, q, fk, node, r)
  }

  lemma {:induction false} RunEdgeFaithful(sc: Schema, db: Database, q: Query, x: seq<Pred>, fk: bool, j: nat, k: nat)
    requires sc.Valid() && WellFormed(sc, q) && j < |q.edges|
    requires Run(sc, db, q, x, fk).Ok? && k < |Run(sc, db, q, x, fk).value| && k < |FetchRows(db, q, x)|
    requires j < |Run(sc, db, q, x, fk).value[k].edges|
    ensures EdgeFaithful(sc, db, q, FetchRows(db, q, x)[k], j, Run(sc, db, q, x, fk).value[k].edges[j])
    decreases q, 0
  {
    RunEdge(sc, db, q, x, fk, j, k);
    if q.edges[j].Some? {
      var e, n, base := sc.Of(q.table).edges[j], q.edges[j].value, Base(sc, db, q, x, fk);
      assert WellFormed(sc, n);
      var batch := LoadEdge(sc, db, q, base, j).value;
      if !Skipped(e, q.edges[j], base) {
        var p := [EdgePred(e, base)];
        assert batch == Run(sc, db, n, p, e.kind.ToMany?).value;
        hide Run, FetchRows, Base, WellFormed, Attach, LoadEdge, Faithful, EdgeFaithful;
        forall i | 0 <= i < |batch| ensures ShowsSomeRow(sc, db, n, e.kind.ToMany?, batch[i]) {
          RunFaithful(sc, db, n, p, e.kind.ToMany?, i);
        }
        BatchAttached(sc, db, q, x, fk, j, k, batch);
      } else {
        hide Run, FetchRows, Base, WellFormed, Attach, Faithful, EdgeFaithful;
        BatchAttached(sc, db, q, x, fk, j, k, batch);
      }
    }
  }

  /** Handing the faithful nodes of a batch to a parent by key. */
  lemma BatchAttached(sc: Schema, db: Database, q: Query, x: seq<Pred>, fk: bool, j: nat, k: nat, batch: seq<Node>)
    requires sc.Valid() && WellFormed(sc, q) && j < |q.edges| && q.edges[j].Some? && k < |FetchRows(db, q, x)|
    requires WellFormed(sc, q.edges[j].value)
    requires forall i :: 0 <= i < |batch| ==>
               ShowsSomeRow(sc, db, q.edges[j].value, sc.Of(q.table).edges[j].kind.ToMany?, batch[i])
    ensures EdgeFaithful(sc, db, q, FetchRows(db, q, x)[k], j,
                         Attach(sc.Of(q.table).edges[j], q.edges[j], Base(sc, db, q, x, fk)[k], batch))
  {
    var e, n, r := sc.Of(q.table).edges[j], q.edges[j].value, FetchRows(db, q, x)[k];
    var parent := Base(sc, db, q, x, fk)[k];
    assert parent.id == r.id && forall c :: c in parent.fks ==> c in r.fks && parent.fks[c] == r.fks[c];
    hide FetchRows, Base, WellFormed, ChildOf, ParentOf, ByFk, LastById;
    if e.kind.ToMany? {
      var list := ByFk(batch, e.column, parent.id);
      forall i | 0 <= i < |list|
        ensures ChildOf(sc, db, n, list[i], e.column, r.id)
      {
        ByFkMember(batch, e.column, parent.id, i);
        ChildRow(sc, db, n, list[i], e.column, r.id);
      }
      assert EdgeFaithful(sc, db, q, r, j, Many(list));
    } else if e.column in parent.fks && LastById(batch, parent.fks[e.column]).Some? {
      var found := LastById(batch, parent.fks[e.column]).value;
      LastByIdMember(batch, parent.fks[e.column]);
      ParentRow(sc, db, n, found, e.column, r);
      assert EdgeFaithful(sc, db, q, r, j, One(Some(found)));
    } else {
      assert EdgeFaithful(sc, db, q, r, j, One(None));
    }
  }

  lemma ChildRow(sc: Schema, db: Database, n: Query, child: Node, column: Column, id: Id)
    requires WellFormed(sc, n) && ShowsSomeRow(sc, db, n, true, child) && column in child.fks && child.fks[column] == id
    ensures ChildOf(sc, db, n, child, column, id)
  {
    var r' :| Faithful(sc, db, n, true, child, r');
    assert RefersTo(r', column, id);
  }

  lemma ParentRow(sc: Schema, db: Database, n: Query, found: Node, column: Column, r: Row)
    requires WellFormed(sc, n) && ShowsSomeRow(sc, db, n, false, found) && column in r.fks && r.fks[column] == found.id
    ensures ParentOf(sc, db, n, found, column, r)
  {
    var r' :| Faithful(sc, db, n, false, found, r');
    assert RefersTo(r, column, r'.id);
  }

  lemma {:induction false} ByFkMember(nodes: seq<Node>, column: Column, id: Id, i: nat)
    requires i < |ByFk(nodes, column, id)|
    ensures var c := ByFk(nodes, column, id)[i];
      column in c.fks && c.fks[column] == id && exists b :: 0 <= b < |nodes| && nodes[b] == c
  {
    var n := |nodes| - 1;
    var front := ByFk(nodes[..n], column, id);
    if i < |front| {
      ByFkMember(nodes[..n], column, id, i);
      var b :| 0 <= b < n && nodes[..n][b] == front[i];
      assert nodes[b] == front[i];
    }
  }

  lemma {:induction false} LastByIdMember(nodes: seq<Node>, id: Id)
    requires LastById(nodes, id).Some?
    ensures var c := LastById(nodes, id).value; c.id == id && exists b :: 0 <= b < |nodes| && nodes[b] == c
  {
    var n := |nodes| - 1;
    if nodes[n].id != id {
      LastByIdMember(nodes[..n], id);
      var b :| 0 <= b < n && nodes[..n][b] == LastById(nodes, id).value;
      assert nodes[b] == LastById(nodes, id).value;
    }
  }

  /** The field a query is refused for is the first that is neither a column nor a foreign key. */
  lemma {:induction false} BadFieldMeans(e: Entity, fields: seq<Column>)
    ensures BadField(e, fields).None? <==>
            forall i :: 0 <= i < |fields| ==> fields[i] in e.columns || fields[i] in e.foreignKeys
    ensures BadField(e, fields).Some? ==>
              exists i :: 0 <= i < |fields| && fields[i] == BadField(e, fields).value
                && fields[i] !in e.columns && fields[i] !in e.foreignKeys
                && forall k :: 0 <= k < i ==> fields[k] in e.columns || fields[k] in e.foreignKeys
  {
    if fields != [] && (fields[0] in e.columns || fields[0] in e.foreignKeys) {
      var rest := fields[1..];
      BadFieldMeans(e, rest);
      assert forall i :: 1 <= i < |fields| ==> fields[i] == rest[i - 1];
      if BadField(e, rest).Some? {
        var i :| 0 <= i < |rest| && rest[i] == BadField(e, rest).value
                 && rest[i] !in e.columns && rest[i] !in e.foreignKeys
                 && forall k :: 0 <= k < i ==> rest[k] in e.columns || rest[k] in e.foreignKeys;
        assert fields[i + 1] == rest[i];
      } else {
        assert forall i :: 0 <= i < |rest| ==> rest[i] == fields[i + 1];
      }
    }
  }
}
