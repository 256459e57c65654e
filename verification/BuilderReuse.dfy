/** What reusing a builder for other parents loses: every run leaves its predicates behind in the nested
    queries, at every depth. */
module BuilderReuse {
  import opened Wrappers
  import opened RowSet
  import opened Schemas
  import opened EagerLoad
  import opened EagerLoadProofs
  import opened EdgeLaws
  import opened NestedLimits

  /** The nested query of a to-many edge was run once for the parents `seen`.  When the builder is
      run again, a parent gets the children it should get if and only if it was among those parents
      or has no children at all: the old predicate is still there. */
  lemma ReusedBuilderChildren(db: Database, n: Query, column: Column, seen: seq<Id>, parent: Id)
    ensures FetchRows(db, Narrowed(n, [FkIn(column, seen)], true), [FkIn(column, [parent])])
            == FetchRows(db, n, [FkIn(column, [parent])])
        <==> parent in seen || FetchRows(db, n, [FkIn(column, [parent])]) == []
    ensures parent !in seen ==>
              FetchRows(db, Narrowed(n, [FkIn(column, seen)], true), [FkIn(column, [parent])]) == []
  {
    var stale, own := FkIn(column, seen), FkIn(column, [parent]);
    var rows := db.Rows(n.table);
    forall r | r in rows
      ensures HoldsAll(n.preds + [stale] + [own], r) == (HoldsAll(n.preds + [own], r) && parent in seen)
    {
      HoldsAllConcat(n.preds + [stale], [own], r);
      HoldsAllConcat(n.preds, [stale], r);
      HoldsAllConcat(n.preds, [own], r);
      assert [stale][0] == stale && [own][0] == own;
      assert HoldsAll([stale], r) == Holds(stale, r) && HoldsAll([own], r) == Holds(own, r);
    }
    if parent in seen {
      FilterAgree(rows, n.preds + [stale] + [own], n.preds + [own]);
    } else {
      assert forall r :: !HoldsAll([IdIn([])], r) by { assert [IdIn([])][0] == IdIn([]); }
      FilterAgree(rows, n.preds + [stale] + [own], [IdIn([])]);
      NoRows(rows);
    }
  }

  lemma {:induction false} NoRows(rows: seq<Row>)
    ensures Filter(rows, [IdIn([])]) == []
  {
    if rows != [] {
      NoRows(rows[..|rows| - 1]);
      assert !Holds([IdIn([])][0], rows[|rows| - 1]);
    }
  }

  lemma {:induction false} TouchKeepsWindows(sc: Schema, db: Database, q: Query, x: seq<Pred>, fk: bool)
    requires WellFormed(sc, q) && NoWindowsBelow(q)
    ensures NoWindowsBelow(Touch(sc, db, q, x, fk))
  {
    var base := Base(sc, db, q, x, fk);
    forall j | 0 <= j < |q.edges| && !Skipped(sc.Of(q.table).edges[j], q.edges[j], base)
      ensures NoWindowsBelow(Touch(sc, db, q.edges[j].value, [EdgePred(sc.Of(q.table).edges[j], base)],
                                   sc.Of(q.table).edges[j].kind.ToMany?))
    {
      var e := sc.Of(q.table).edges[j];
      TouchKeepsWindows(sc, db, q.edges[j].value, [EdgePred(e, base)], e.kind.ToMany?);
    }
  }

  /** The builder `n'` is `n` with one more predicate, which the rows asked for satisfy anyway. */
  lemma StaleAgrees(db: Database, n: Query, n': Query, p: Pred, own: Pred)
    requires n'.table == n.table && n'.order == n.order && n'.limit == n.limit && n'.offset == n.offset
    requires n'.preds == n.preds + [p] && Given(n.limit) == 0 && Given(n.offset) == 0
    requires forall r :: Holds(own, r) ==> Holds(p, r)
    ensures FetchRows(db, n', [own]) == FetchRows(db, n, [own])
    ensures forall r :: r in FetchRows(db, n, [own]) ==> r in FetchRows(db, n, [p])
  {
    forall r ensures HoldsAll(n.preds + [p] + [own], r) == HoldsAll(n.preds + [own], r) {
      HoldsAllConcat(n.preds + [p], [own], r);
      HoldsAllConcat(n.preds, [p], r);
      HoldsAllConcat(n.preds, [own], r);
      assert [p][0] == p && [own][0] == own;
      assert HoldsAll([p], r) == Holds(p, r) && HoldsAll([own], r) == Holds(own, r);
    }
    FilterAgree(db.Rows(n.table), n'.preds + [own], n.preds + [own]);
    FewerRows(db, n, p, own);
  }

  /** What a run leaves behind in a builder, at every depth, does not show on the rows of that run. */
  lemma {:induction false} TouchedLooksSame(sc: Schema, db: Database, q: Query, x: seq<Pred>, fk: bool, r: Row)
    requires sc.Valid() && WellFormed(sc, q) && NoWindowsBelow(q) && r in FetchRows(db, q, x)
    ensures WellFormed(sc, Touch(sc, db, q, x, fk))
    ensures LazyNode(sc, db, Touch(sc, db, q, x, fk), fk, r) == LazyNode(sc, db, q, fk, r)
    decreases q, 1
  {
    TouchWellFormed(sc, db, q, x, fk);
    var t := Touch(sc, db, q, x, fk);
    assert WantsToOne(sc.Of(q.table), t.edges) == WantsToOne(sc.Of(q.table), q.edges);
    assert Columns(sc.Of(q.table), t, fk) == Columns(sc.Of(q.table), q, fk);
    forall j | 0 <= j < |q.edges| ensures LazyEdge(sc, db, t, r, j) == LazyEdge(sc, db, q, r, j) {
      TouchedEdgeLooksSame(sc, db, q, x, fk, r, j);
    }
    hide Touch, WellFormed, NoWindowsBelow, FetchRows, Columns, LazyEdge;
    assert LazyNode(sc, db, t, fk, r).edges == LazyNode(sc, db, q, fk, r).edges;
  }

  lemma {:induction false} TouchedEdgeLooksSame(sc: Schema, db: Database, q: Query, x: seq<Pred>, fk: bool,
                                                r: Row, j: nat)
    requires sc.Valid() && WellFormed(sc, q) && NoWindowsBelow(q) && r in FetchRows(db, q, x) && j < |q.edges|
    requires WellFormed(sc, Touch(sc, db, q, x, fk))
    ensures LazyEdge(sc, db, Touch(sc, db, q, x, fk), r, j) == LazyEdge(sc, db, q, r, j)
    decreases q, 0
  {
    var base, t := Base(sc, db, q, x, fk), Touch(sc, db, q, x, fk);
    var e := sc.Of(q.table).edges[j];
    SameEdgeLooksSame(sc, db, q, t, r, j);
    if t.edges[j] != q.edges[j] {
      var n, p := q.edges[j].value, EdgePred(e, base);
      assert t.edges[j] == TouchEdge(sc, db, q, base, j);
      assert t.edges[j] == Some(Touch(sc, db, n, [p], e.kind.ToMany?));
      assert Given(n.limit) == 0 && Given(n.offset) == 0 && NoWindowsBelow(n) && WellFormed(sc, n);
      var own := OwnPred(e, r);
      OwnWithinEdgePred(sc, db, q, x, fk, r, j);
      var n' := t.edges[j].value;
      assert n'.preds == n.preds + [p] && WellFormed(sc, n');
      if own.Some? {
        StaleAgrees(db, n, n', p, own.value);
        var rows := FetchRows(db, n, [own.value]);
        forall r' | r' in rows
          ensures LazyNode(sc, db, n', e.kind.ToMany?, r') == LazyNode(sc, db, n, e.kind.ToMany?, r')
        {
          TouchedLooksSame(sc, db, n, [p], e.kind.ToMany?, r');
        }
        SameEdgeValue(sc, db, q, t, r, j, own.value);
      }
    }
  }

  /** What the parent's own query for the edge asks for; nothing if it has no key. */
  ghost function OwnPred(e: Edge, r: Row): Option<Pred> {
    if e.kind.ToMany? then Some(FkIn(e.column, [r.id]))
    else if e.column in r.fks then Some(IdIn([r.fks[e.column]])) else None
  }

  lemma OwnWithinEdgePred(sc: Schema, db: Database, q: Query, x: seq<Pred>, fk: bool, r: Row, j: nat)
    requires sc.Valid() && WellFormed(sc, q) && r in FetchRows(db, q, x) && j < |q.edges| && q.edges[j].Some?
    ensures var e := sc.Of(q.table).edges[j];
      OwnPred(e, r).Some? ==>
        forall r' :: Holds(OwnPred(e, r).value, r') ==> Holds(EdgePred(e, Base(sc, db, q, x, fk)), r')
  {
    var e, base := sc.Of(q.table).edges[j], Base(sc, db, q, x, fk);
    var k :| 0 <= k < |FetchRows(db, q, x)| && FetchRows(db, q, x)[k] == r;
    sc.EdgeColumn(q.table, j);
    if e.kind.ToMany? {
      assert Ids(base)[k] == r.id;
    } else if e.column in r.fks {
      assert e.column in Columns(sc.Of(q.table), q, fk);
      assert base[k].fks[e.column] == r.fks[e.column];
      KeysMembers(base, e.column);
    }
    hide FetchRows, Base, Keys;
  }

  lemma SameEdgeLooksSame(sc: Schema, db: Database, q: Query, t: Query, r: Row, j: nat)
    requires WellFormed(sc, q) && WellFormed(sc, t) && q.table == t.table && j < |q.edges|
    requires q.edges[j].Some? == t.edges[j].Some?
    ensures q.edges[j] == t.edges[j] ==> LazyEdge(sc, db, t, r, j) == LazyEdge(sc, db, q, r, j)
    ensures OwnPred(sc.Of(q.table).edges[j], r).None? ==> LazyEdge(sc, db, t, r, j) == LazyEdge(sc, db, q, r, j)
  {
  }

  /** Two nested queries that find the same rows and show them alike give the edge the same value. */
  lemma SameEdgeValue(sc: Schema, db: Database, q: Query, t: Query, r: Row, j: nat, own: Pred)
    requires WellFormed(sc, q) && WellFormed(sc, t) && q.table == t.table && j < |q.edges|
    requires q.edges[j].Some? && t.edges[j].Some? && OwnPred(sc.Of(q.table).edges[j], r) == Some(own)
    requires FetchRows(db, t.edges[j].value, [own]) == FetchRows(db, q.edges[j].value, [own])
    requires forall r' :: r' in FetchRows(db, q.edges[j].value, [own]) ==>
               (LazyNode(sc, db, t.edges[j].value, sc.Of(q.table).edges[j].kind.ToMany?, r')
                == LazyNode(sc, db, q.edges[j].value, sc.Of(q.table).edges[j].kind.ToMany?, r'))
    ensures LazyEdge(sc, db, t, r, j) == LazyEdge(sc, db, q, r, j)
  {
    hide FetchRows, LazyNode;
    var n, n', many := q.edges[j].value, t.edges[j].value, sc.Of(q.table).edges[j].kind.ToMany?;
    var rows := FetchRows(db, n, [own]);
    assert forall k :: 0 <= k < |rows| ==> rows[k] in rows;
    assert LazyNodes(sc, db, n', many, rows) == LazyNodes(sc, db, n, many, rows);
  }

  /** The first run, which returned the nodes `first`, asked for this parent's side of the edge too. */
  ghost predicate AskedFor(e: Edge, first: seq<Node>, parent: Row) {
    if e.kind.ToMany? then parent.id in Ids(first)
    else Keys(first, e.column) == [] || e.column !in parent.fks || parent.fks[e.column] in Keys(first, e.column)
  }

  ghost predicate Bare(v: EdgeValue) {
    v == Many([]) || v == One(None)
  }

  /** Run the builder, select other parents with it, run it again: a parent of the second run gets on
      edge `j` what it should get, with everything below, if and only if the first run asked for it
      too or there is nothing to get.  `q` is the builder before the first run, `again` after the new
      selection; the stale predicates sit at every level of the nested queries.  Limits on other edges
      do not matter. */
  lemma ReusedBuilderEdge(sc: Schema, db: Database, q: Query, again: Query, j: nat, k: nat)
    requires sc.Valid() && WellFormed(sc, q) && WellFormed(sc, again)
    requires j < |q.edges| && q.edges[j].Some? && NoWindowsOn(q, j)
    requires Run(sc, db, q, [], false).Ok? && Run(sc, db, q, [], false).value != []
    requires again == Touch(sc, db, q, [], false).(preds := again.preds, order := again.order,
                                                   limit := again.limit, offset := again.offset)
    requires Run(sc, db, again, [], false).Ok? && k < |Run(sc, db, again, [], false).value|
    ensures var parent := FetchRows(db, again, [])[k];
      Run(sc, db, again, [], false).value[k].edges[j] == LazyEdge(sc, db, q, parent, j)
      <==> AskedFor(sc.Of(q.table).edges[j], Run(sc, db, q, [], false).value, parent)
           || Bare(LazyEdge(sc, db, q, parent, j))
    ensures !AskedFor(sc.Of(q.table).edges[j], Run(sc, db, q, [], false).value, FetchRows(db, again, [])[k]) ==>
              Bare(Run(sc, db, again, [], false).value[k].edges[j])
  {
    var parent, first := FetchRows(db, again, [])[k], Run(sc, db, q, [], false).value;
    var e, n := sc.Of(q.table).edges[j], q.edges[j].value;
    TouchedEdge(sc, db, q, j);
    assert again.table == q.table && again.edges == Touch(sc, db, q, [], false).edges && WellFormed(sc, n);
    TouchKeepsWindows(sc, db, n, [EdgePred(e, first)], e.kind.ToMany?);
    assert NoWindowsOn(again, j);
    hide Run, Touch, WellFormed, NoWindowsBelow, FetchRows, LazyEdge, AskedFor, Bare, Attach, LoadEdge, Base;
    RunEdge(sc, db, again, [], false, j, k);
    EagerEdge(sc, db, again, [], false, j, k);
    ReusedEdgeValue(sc, db, q, again, j, parent, first);
  }

  lemma TouchedEdge(sc: Schema, db: Database, q: Query, j: nat)
    requires WellFormed(sc, q) && j < |q.edges| && q.edges[j].Some?
    requires Run(sc, db, q, [], false).Ok? && Run(sc, db, q, [], false).value != []
    ensures var e, first := sc.Of(q.table).edges[j], Run(sc, db, q, [], false).value;
      Touch(sc, db, q, [], false).edges[j] == if Skipped(e, q.edges[j], first) then q.edges[j]
        else Some(Touch(sc, db, q.edges[j].value, [EdgePred(e, first)], e.kind.ToMany?))
  {
    var base, first := Base(sc, db, q, [], false), Run(sc, db, q, [], false).value;
    RunNodes(sc, db, q, [], false);
    assert forall k :: 0 <= k < |base| ==> first[k].(edges := []) == base[k].(edges := []);
    LoadPrefix(sc, db, q, base, j);
    SameEdgePred(sc.Of(q.table).edges[j], first, base);
    assert Touch(sc, db, q, [], false).edges[j] == TouchEdge(sc, db, q, base, j);
    hide Run, EdgePred, Keys, Base, Load;
  }

  lemma {:induction false} LoadPrefix(sc: Schema, db: Database, q: Query, base: seq<Node>, j: nat)
    requires WellFormed(sc, q) && j <= |q.edges| && Load(sc, db, q, base, |q.edges|).Ok?
    ensures Load(sc, db, q, base, j).Ok?
  {
    if Load(sc, db, q, base, j).Err? { ErrorsStay(sc, db, q, base, j, |q.edges|); }
  }

  lemma ReusedEdgeValue(sc: Schema, db: Database, q: Query, again: Query, j: nat, parent: Row, first: seq<Node>)
    requires sc.Valid() && WellFormed(sc, q) && WellFormed(sc, again) && again.table == q.table
    requires j < |q.edges| && q.edges[j].Some? && NoWindowsOn(q, j)
    requires var e := sc.Of(q.table).edges[j];
      again.edges[j] == if Skipped(e, q.edges[j], first) then q.edges[j]
        else Some(Touch(sc, db, q.edges[j].value, [EdgePred(e, first)], e.kind.ToMany?))
    ensures LazyEdge(sc, db, again, parent, j) == LazyEdge(sc, db, q, parent, j)
        <==> AskedFor(sc.Of(q.table).edges[j], first, parent) || Bare(LazyEdge(sc, db, q, parent, j))
    ensures !AskedFor(sc.Of(q.table).edges[j], first, parent) ==> Bare(LazyEdge(sc, db, again, parent, j))
  {
    var e := sc.Of(q.table).edges[j];
    SameEdgeLooksSame(sc, db, q, again, parent, j);
    var own := OwnPred(e, parent);
    if !Skipped(e, q.edges[j], first) && own.Some? {
      var n, n', stale := q.edges[j].value, again.edges[j].value, EdgePred(e, first);
      assert n'.preds == n.preds + [stale] && Given(n.limit) == 0 && Given(n.offset) == 0 && WellFormed(sc, n');
      if AskedFor(e, first, parent) {
        assert forall r :: Holds(own.value, r) ==> Holds(stale, r);
        StaleAgrees(db, n, n', stale, own.value);
        forall r | r in FetchRows(db, n, [own.value])
          ensures LazyNode(sc, db, n', e.kind.ToMany?, r) == LazyNode(sc, db, n, e.kind.ToMany?, r)
        {
          TouchedLooksSame(sc, db, n, [stale], e.kind.ToMany?, r);
        }
        SameEdgeValue(sc, db, q, again, parent, j, own.value);
      } else {
        assert forall r :: Holds(own.value, r) ==> !Holds(stale, r);
        StaleExcludes(db, n, n', stale, own.value);
        NothingFound(sc, db, again, parent, j, own.value);
      }
    }
  }

  lemma NothingFound(sc: Schema, db: Database, q: Query, r: Row, j: nat, own: Pred)
    requires WellFormed(sc, q) && j < |q.edges| && q.edges[j].Some? && OwnPred(sc.Of(q.table).edges[j], r) == Some(own)
    requires FetchRows(db, q.edges[j].value, [own]) == []
    ensures Bare(LazyEdge(sc, db, q, r, j))
  {
    hide FetchRows;
  }

  /** A stale predicate that excludes what is asked for leaves nothing. */
  lemma StaleExcludes(db: Database, n: Query, n': Query, p: Pred, own: Pred)
    requires n'.table == n.table && n'.preds == n.preds + [p] && forall r :: Holds(own, r) ==> !Holds(p, r)
    ensures FetchRows(db, n', [own]) == []
  {
    forall r ensures !HoldsAll(n'.preds + [own], r) && !HoldsAll([IdIn([])], r) {
      HoldsAllConcat(n'.preds, [own], r);
      HoldsAllConcat(n.preds, [p], r);
      assert [p][0] == p && [own][0] == own && [IdIn([])][0] == IdIn([]);
    }
    FilterAgree(db.Rows(n.table), n'.preds + [own], [IdIn([])]);
    NoRows(db.Rows(n.table));
  }

  // ----- Paging with one builder -----

  lemma {:induction false} TouchKeepsFields(sc: Schema, db: Database, q: Query, x: seq<Pred>, fk: bool)
    requires WellFormed(sc, q) && FieldsValid(sc, q)
    ensures FieldsValid(sc, Touch(sc, db, q, x, fk))
  {
    var base := Base(sc, db, q, x, fk);
    forall j | 0 <= j < |q.edges| && !Skipped(sc.Of(q.table).edges[j], q.edges[j], base)
      ensures FieldsValid(sc, Touch(sc, db, q.edges[j].value, [EdgePred(sc.Of(q.table).edges[j], base)],
                                    sc.Of(q.table).edges[j].kind.ToMany?))
    {
      var e := sc.Of(q.table).edges[j];
      TouchKeepsFields(sc, db, q.edges[j].value, [EdgePred(e, base)], e.kind.ToMany?);
    }
  }

  /** A query for the first entity of a table with one to-many edge. */
  ghost function FirstPage(sc: Schema, table: TableName, j: nat): Query
    requires j < |sc.Of(table).edges|
  {
    WithEdge(sc, table, j, Windowed(sc, sc.Of(table).edges[j].target, [], None, None)).(limit := Some(1))
  }

  /** Two rows, each of which is its own only child. */
  ghost function TwoPages(table: TableName, e: Edge): Database {
    Both(table, e, TwoOwners(e.column, 1))
  }

  lemma FirstPageShape(sc: Schema, table: TableName, j: nat)
    requires sc.Valid() && j < |sc.Of(table).edges|
    ensures var q := FirstPage(sc, table, j);
      && WellFormed(sc, q) && FieldsValid(sc, q) && q.table == table && j < |q.edges| && q.edges[j].Some?
      && NoWindowsOn(q, j) && q.edges[j].value.table == sc.Of(table).edges[j].target
      && q.edges[j].value.preds == []
      && q.preds == [] && q.order == [] && q.limit == Some(1) && q.offset == None
  {
    var n := Windowed(sc, sc.Of(table).edges[j].target, [], None, None);
    assert WellFormed(sc, n) && FieldsValid(sc, n) && NoWindowsBelow(n);
  }

  /** For every schema and to-many edge: `Limit(1)`, run, `Offset(1)`, run again.  The entity of the second
      page has a child, and comes back without it. */
  lemma SecondPageLosesChildren(sc: Schema, table: TableName, j: nat)
    requires sc.Valid() && j < |sc.Of(table).edges| && sc.Of(table).edges[j].kind.ToMany?
    ensures var db, q := TwoPages(table, sc.Of(table).edges[j]), FirstPage(sc, table, j);
      && db.Valid() && WellFormed(sc, q) && Run(sc, db, q, [], false).Ok?
      && var again := Touch(sc, db, q, [], false).(offset := Some(1));
      && WellFormed(sc, again)
      && var r := Run(sc, db, again, [], false);
      && r.Ok? && |r.value| == 1 && j < |r.value[0].edges| && r.value[0].edges[j] == Many([])
      && |FetchRows(db, again, [])| == 1
      && LazyEdge(sc, db, q, FetchRows(db, again, [])[0], j).Many?
      && |LazyEdge(sc, db, q, FetchRows(db, again, [])[0], j).nodes| == 1
  {
    var e, q := sc.Of(table).edges[j], FirstPage(sc, table, j);
    var db := TwoPages(table, e);
    FirstPageShape(sc, table, j);
    PagesRead(table, e);
    hide FirstPage, TwoPages, Run, LazyEdge, TwoOwners, Numeral;
    RunSucceeds(sc, db, q, [], false);
    TouchWellFormed(sc, db, q, [], false);
    TouchKeepsFields(sc, db, q, [], false);
    var again := Touch(sc, db, q, [], false).(offset := Some(1));
    SameFields(sc, Touch(sc, db, q, [], false), again);
    RunSucceeds(sc, db, again, [], false);
    PageRows(db, q, again, TwoOwners(e.column, 1));
    PagesDiffer(sc, db, q, again, j);
  }

  lemma PagesRead(table: TableName, e: Edge)
    ensures var db, rows := TwoPages(table, e), TwoOwners(e.column, 1);
      && db.Valid() && db.Rows(table) == rows && db.Rows(e.target) == rows
  {
    BothRows(table, e, TwoOwners(e.column, 1));
    NumberedDistinct(TwoOwners(e.column, 1));
  }

  lemma SameFields(sc: Schema, q: Query, q': Query)
    requires q' == q.(offset := q'.offset)
    ensures WellFormed(sc, q) ==> WellFormed(sc, q')
    ensures FieldsValid(sc, q) ==> FieldsValid(sc, q')
  {
  }

  lemma PageRows(db: Database, q: Query, again: Query, rows: seq<Row>)
    requires db.Rows(q.table) == rows && |rows| == 2 && again.table == q.table
    requires q.preds == again.preds == [] && q.order == again.order == [] && q.limit == again.limit == Some(1)
    requires q.offset == None && again.offset == Some(1)
    ensures FetchRows(db, q, []) == [rows[0]] && FetchRows(db, again, []) == [rows[1]]
  {
    EverythingSelected(rows);
    hide Filter, Sort;
    assert q.preds + [] == [] && again.preds + [] == [];
  }

  lemma PagesDiffer(sc: Schema, db: Database, q: Query, again: Query, j: nat)
    requires sc.Valid() && WellFormed(sc, q) && WellFormed(sc, again)
    requires j < |q.edges| && q.edges[j].Some? && NoWindowsOn(q, j) && q.edges[j].value.preds == []
    requires sc.Of(q.table).edges[j].kind.ToMany? && again == Touch(sc, db, q, [], false).(offset := again.offset)
    requires Run(sc, db, q, [], false).Ok? && Run(sc, db, again, [], false).Ok?
    requires var rows := TwoOwners(sc.Of(q.table).edges[j].column, 1);
      && FetchRows(db, q, []) == [rows[0]] && FetchRows(db, again, []) == [rows[1]]
      && db.Rows(q.edges[j].value.table) == rows
    ensures var r, due := Run(sc, db, again, [], false).value, LazyEdge(sc, db, q, FetchRows(db, again, [])[0], j);
      && |r| == 1 && j < |r[0].edges| && r[0].edges[j] == Many([])
      && due.Many? && |due.nodes| == 1
  {
    var e, first := sc.Of(q.table).edges[j], Run(sc, db, q, [], false).value;
    var parent := FetchRows(db, again, [])[0];
    assert again.table == q.table && |first| == 1 && |Run(sc, db, again, [], false).value| == 1;
    RunNodes(sc, db, q, [], false);
    assert first[0].id == Base(sc, db, q, [], false)[0].id == Numeral(0) && parent.id == Numeral(1);
    SameNumeral(0, 1);
    assert Ids(first) == [Numeral(0)];
    ReusedBuilderEdge(sc, db, q, again, j, 0);
    RunEdge(sc, db, again, [], false, j, 0);
    hide Run, Touch, LazyEdge, FetchRows, Numeral, TwoOwners, WellFormed, Filter;
    ListOfParent(sc, db, q, parent, j);
    FetchedCount(db, q.edges[j].value, FkIn(e.column, [parent.id]));
    OwnCount(e.column, 1, 1);
  }
}
