/** What eager loading promises: the batched run is the nested-loop join, running a builder again
    changes nothing and a clone computes the same. */
module EagerLoadProofs {
  import opened Wrappers
  import opened RowSet
  import opened Schemas
  import opened EagerLoad

  // ----- Small facts about one edge -----

  lemma {:induction false} KeysMembers(nodes: seq<Node>, column: Column)
    ensures forall k :: 0 <= k < |nodes| && column in nodes[k].fks ==> nodes[k].fks[column] in Keys(nodes, column)
    ensures forall id :: id in Keys(nodes, column) ==>
              exists k :: 0 <= k < |nodes| && column in nodes[k].fks && nodes[k].fks[column] == id
  {
    if nodes != [] {
      var n := |nodes| - 1;
      KeysMembers(nodes[..n], column);
      forall k | 0 <= k < |nodes| && column in nodes[k].fks ensures nodes[k].fks[column] in Keys(nodes, column) {
        if k < n { assert nodes[..n][k] == nodes[k]; }
      }
      forall id | id in Keys(nodes, column)
        ensures exists k :: 0 <= k < |nodes| && column in nodes[k].fks && nodes[k].fks[column] == id
      {
        if id in Keys(nodes[..n], column) {
          var k :| 0 <= k < n && column in nodes[..n][k].fks && nodes[..n][k].fks[column] == id;
          assert nodes[k].fks[column] == id;
        }
      }
    }
  }

  /** No key is asked for twice. */
  lemma {:induction false} KeysDistinct(nodes: seq<Node>, column: Column)
    ensures forall i, j :: 0 <= i < j < |Keys(nodes, column)| ==> Keys(nodes, column)[i] != Keys(nodes, column)[j]
  {
    if nodes != [] { KeysDistinct(nodes[..|nodes| - 1], column); }
  }

  lemma {:induction false} LazyPrefix(sc: Schema, db: Database, q: Query, fk: bool, rows: seq<Row>, n: nat)
    requires WellFormed(sc, q) && n <= |rows|
    ensures LazyNodes(sc, db, q, fk, rows)[..n] == LazyNodes(sc, db, q, fk, rows[..n])
  {
  }

  /** Picking children out of the batch by foreign key is filtering the batch's rows. */
  lemma {:induction false} ByFkOfLazy(sc: Schema, db: Database, q: Query, rows: seq<Row>, column: Column, id: Id)
    requires WellFormed(sc, q)
    requires column in sc.Of(q.table).foreignKeys
    ensures ByFk(LazyNodes(sc, db, q, true, rows), column, id)
         == LazyNodes(sc, db, q, true, Filter(rows, [FkIn(column, [id])]))
  {
    if rows != [] {
      var n := |rows| - 1;
      LazyPrefix(sc, db, q, true, rows, n);
      ByFkOfLazy(sc, db, q, rows[..n], column, id);
      assert column in Columns(sc.Of(q.table), q, true);
      assert HoldsAll([FkIn(column, [id])], rows[n]) == Holds([FkIn(column, [id])][0], rows[n]);
    }
  }

  ghost function LazyLast(sc: Schema, db: Database, q: Query, rows: seq<Row>): Option<Node>
    requires WellFormed(sc, q)
  {
    if rows == [] then None else Some(LazyNode(sc, db, q, false, rows[|rows| - 1]))
  }

  lemma {:induction false} LastByIdOfLazy(sc: Schema, db: Database, q: Query, rows: seq<Row>, id: Id)
    requires WellFormed(sc, q)
    ensures LastById(LazyNodes(sc, db, q, false, rows), id)
         == LazyLast(sc, db, q, Filter(rows, [IdIn([id])]))
  {
    if rows != [] {
      var n := |rows| - 1;
      LazyPrefix(sc, db, q, false, rows, n);
      LastByIdOfLazy(sc, db, q, rows[..n], id);
      assert HoldsAll([IdIn([id])], rows[n]) == Holds([IdIn([id])][0], rows[n]);
    }
  }

  // ----- Eager loading is the nested-loop join -----

  /** No nested query, at any depth, has an effective limit or offset. */
  ghost predicate NoWindowsBelow(q: Query) {
    forall j :: 0 <= j < |q.edges| && q.edges[j].Some? ==>
      && Given(q.edges[j].value.limit) == 0 && Given(q.edges[j].value.offset) == 0
      && NoWindowsBelow(q.edges[j].value)
  }

  /** For every database, every schema and every tree of nested queries without nested limits,
      the batched run gives each parent exactly what its own query would have given it. */
  lemma {:induction false} EagerIsLazy(sc: Schema, db: Database, q: Query, extra: seq<Pred>, fk: bool)
    requires sc.Valid() && WellFormed(sc, q) && NoWindowsBelow(q)
    requires Run(sc, db, q, extra, fk).Ok?
    ensures Run(sc, db, q, extra, fk).value == LazyNodes(sc, db, q, fk, FetchRows(db, q, extra))
    decreases q, 1
  {
    var rows := FetchRows(db, q, extra);
    var base := Base(sc, db, q, extra, fk);
    if base != [] {
      var e := sc.Of(q.table);
      var children := Load(sc, db, q, base, |q.edges|).value;
      var got := Assemble(e, q.edges, base, children);
      LoadParts(sc, db, q, base, |q.edges|);
      forall k | 0 <= k < |base| ensures got[k] == LazyNode(sc, db, q, fk, rows[k]) {
        forall j | 0 <= j < |q.edges|
          ensures Attach(e.edges[j], q.edges[j], base[k], children[j]) == LazyEdge(sc, db, q, rows[k], j)
        {
          EagerEdge(sc, db, q, extra, fk, j, k);
        }
        assert AttachEdges(e, q.edges, base[k], children) == LazyNode(sc, db, q, fk, rows[k]).edges;
      }
    }
  }

  lemma {:induction false} LoadParts(sc: Schema, db: Database, q: Query, base: seq<Node>, n: nat)
    requires WellFormed(sc, q) && n <= |q.edges|
    requires Load(sc, db, q, base, n).Ok?
    ensures forall j :: 0 <= j < n ==> LoadEdge(sc, db, q, base, j) == Ok(Load(sc, db, q, base, n).value[j])
  {
    if n != 0 { LoadParts(sc, db, q, base, n - 1); }
  }

  /** The nested query of edge `j` has no effective limit or offset, nor has any below it. */
  ghost predicate NoWindowsOn(q: Query, j: nat)
    requires j < |q.edges|
  {
    q.edges[j].Some? ==>
      && Given(q.edges[j].value.limit) == 0 && Given(q.edges[j].value.offset) == 0
      && NoWindowsBelow(q.edges[j].value)
  }

  /** One edge of one parent, whatever windows the other edges have. */
  lemma {:induction false} EagerEdge(sc: Schema, db: Database, q: Query, extra: seq<Pred>, fk: bool, j: nat, k: nat)
    requires sc.Valid() && WellFormed(sc, q)
    requires j < |q.edges| && NoWindowsOn(q, j) && k < |FetchRows(db, q, extra)|
    requires LoadEdge(sc, db, q, Base(sc, db, q, extra, fk), j).Ok?
    ensures Attach(sc.Of(q.table).edges[j], q.edges[j], Base(sc, db, q, extra, fk)[k],
                   LoadEdge(sc, db, q, Base(sc, db, q, extra, fk), j).value)
         == LazyEdge(sc, db, q, FetchRows(db, q, extra)[k], j)
    decreases q, 0
  {
    if q.edges[j].Some? {
      var base := Base(sc, db, q, extra, fk);
      var r := FetchRows(db, q, extra)[k];
      var e := sc.Of(q.table).edges[j];
      var n := q.edges[j].value;
      sc.EdgeColumn(q.table, j);
      if e.kind.ToMany? {
        EagerIsLazy(sc, db, n, [EdgePred(e, base)], true);
        ByFkOfLazy(sc, db, n, FetchRows(db, n, [EdgePred(e, base)]), e.column, r.id);
        assert Ids(base)[k] == r.id;
        NarrowSelect(db.Rows(n.table), n.preds, EdgePred(e, base), FkIn(e.column, [r.id]), n.order);
      } else {
        assert e.column in Columns(sc.Of(q.table), q, fk);
        KeysMembers(base, e.column);
        if e.column in r.fks {
          var key := r.fks[e.column];
          assert base[k].fks[e.column] == key;
          EagerIsLazy(sc, db, n, [EdgePred(e, base)], false);
          LastByIdOfLazy(sc, db, n, FetchRows(db, n, [EdgePred(e, base)]), key);
          NarrowSelect(db.Rows(n.table), n.preds, EdgePred(e, base), IdIn([key]), n.order);
        }
      }
    }
  }

  /** What a successful run has put on edge `j` of its k-th node, and what the node is otherwise. */
  lemma RunEdge(sc: Schema, db: Database, q: Query, extra: seq<Pred>, fk: bool, j: nat, k: nat)
    requires WellFormed(sc, q) && j < |q.edges|
    requires Run(sc, db, q, extra, fk).Ok? && k < |Run(sc, db, q, extra, fk).value|
    ensures var base, got := Base(sc, db, q, extra, fk), Run(sc, db, q, extra, fk).value[k];
      && k < |base| && LoadEdge(sc, db, q, base, j).Ok?
      && got == base[k].(edges := got.edges) && |got.edges| == |q.edges|
      && got.edges[j] == Attach(sc.Of(q.table).edges[j], q.edges[j], base[k], LoadEdge(sc, db, q, base, j).value)
  {
    LoadParts(sc, db, q, Base(sc, db, q, extra, fk), |q.edges|);
    hide LoadEdge, Load, Attach, FetchRows, Project;
  }

  // ----- When a run succeeds -----

  ghost predicate FieldsValid(sc: Schema, q: Query) {
    && BadField(sc.Of(q.table), q.fields).None?
    && forall j :: 0 <= j < |q.edges| && q.edges[j].Some? ==> FieldsValid(sc, q.edges[j].value)
  }

  lemma {:induction false} RunSucceeds(sc: Schema, db: Database, q: Query, extra: seq<Pred>, fk: bool)
    requires WellFormed(sc, q) && FieldsValid(sc, q)
    ensures Run(sc, db, q, extra, fk).Ok?
    decreases q, 1, 0
  {
    LoadSucceeds(sc, db, q, Base(sc, db, q, extra, fk), |q.edges|);
  }

  lemma {:induction false} LoadSucceeds(sc: Schema, db: Database, q: Query, base: seq<Node>, n: nat)
    requires WellFormed(sc, q) && FieldsValid(sc, q) && n <= |q.edges|
    ensures Load(sc, db, q, base, n).Ok?
    decreases q, 0, n
  {
    if n != 0 {
      LoadSucceeds(sc, db, q, base, n - 1);
      var e := sc.Of(q.table).edges[n - 1];
      if !Skipped(e, q.edges[n - 1], base) {
        RunSucceeds(sc, db, q.edges[n - 1].value, [EdgePred(e, base)], e.kind.ToMany?);
      }
    }
  }

  // ----- Builders that compute the same -----

  /** Two builders with the same entities at the top and the same child nodes on every edge that is
      reached return the same. */
  lemma {:induction false} RunCongruence(sc: Schema, db: Database,
                                         q: Query, x: seq<Pred>, fk: bool, q': Query, x': seq<Pred>, fk': bool)
    requires WellFormed(sc, q) && WellFormed(sc, q') && q.table == q'.table && q.fields == q'.fields
    requires Base(sc, db, q, x, fk) == Base(sc, db, q', x', fk')
    requires forall j :: 0 <= j < |q.edges| ==> q.edges[j].Some? == q'.edges[j].Some?
    requires Base(sc, db, q, x, fk) != [] && BadField(sc.Of(q.table), q.fields).None? ==>
               forall j :: 0 <= j < |q.edges| && Load(sc, db, q, Base(sc, db, q, x, fk), j).Ok? ==>
                 LoadEdge(sc, db, q, Base(sc, db, q, x, fk), j) == LoadEdge(sc, db, q', Base(sc, db, q, x, fk), j)
    ensures Run(sc, db, q, x, fk) == Run(sc, db, q', x', fk')
  {
    assert |q.edges| == |q'.edges| == |sc.Of(q.table).edges|;
    hide Base, BadField, WellFormed, Load, LoadEdge, FetchRows;
    var base := Base(sc, db, q, x, fk);
    if base != [] && BadField(sc.Of(q.table), q.fields).None? {
      LoadCongruence(sc, db, q, q', base, |q.edges|);
      var load := Load(sc, db, q, base, |q.edges|);
      if load.Ok? {
        var e := sc.Of(q.table);
        forall k | 0 <= k < |base|
          ensures AttachEdges(e, q.edges, base[k], load.value) == AttachEdges(e, q'.edges, base[k], load.value)
        {
        }
        assert Assemble(e, q.edges, base, load.value) == Assemble(e, q'.edges, base, load.value);
      }
    }
  }

  lemma {:induction false} LoadCongruence(sc: Schema, db: Database, q: Query, q': Query, base: seq<Node>, n: nat)
    requires WellFormed(sc, q) && WellFormed(sc, q') && q.table == q'.table && n <= |q.edges|
    requires forall j :: 0 <= j < n && Load(sc, db, q, base, j).Ok? ==>
               LoadEdge(sc, db, q, base, j) == LoadEdge(sc, db, q', base, j)
    ensures Load(sc, db, q, base, n) == Load(sc, db, q', base, n)
  {
    if n != 0 { LoadCongruence(sc, db, q, q', base, n - 1); }
  }

  lemma SameBase(sc: Schema, db: Database, q: Query, x: seq<Pred>, fk: bool, q': Query, x': seq<Pred>, fk': bool)
    requires q.table == q'.table && q.fields == q'.fields && q.order == q'.order
    requires q.limit == q'.limit && q.offset == q'.offset
    requires |q.edges| == |q'.edges| == |sc.Of(q.table).edges|
    requires forall j :: 0 <= j < |q.edges| ==> q.edges[j].Some? == q'.edges[j].Some?
    requires (q.withFKs || fk) == (q'.withFKs || fk')
    requires forall r :: HoldsAll(q.preds + x, r) == HoldsAll(q'.preds + x', r)
    ensures Base(sc, db, q, x, fk) == Base(sc, db, q', x', fk')
  {
    FilterAgree(db.Rows(q.table), q.preds + x, q'.preds + x');
    assert WantsToOne(sc.Of(q.table), q.edges) == WantsToOne(sc.Of(q.table), q'.edges);
  }

  /** Adding the predicates to the builder first, as the loaders do, is running with them. */
  lemma RunAfterWhere(sc: Schema, db: Database, q: Query, x: seq<Pred>, fk: bool)
    requires WellFormed(sc, q)
    ensures WellFormed(sc, Narrowed(q, x, fk))
    ensures Run(sc, db, Narrowed(q, x, fk), [], false) == Run(sc, db, q, x, fk)
    ensures Touch(sc, db, Narrowed(q, x, fk), [], false) == Touch(sc, db, q, x, fk)
  {
    var q' := Narrowed(q, x, fk);
    assert q'.preds + [] == q.preds + x;
    SameBase(sc, db, q, x, fk, q', [], false);
    RunCongruence(sc, db, q, x, fk, q', [], false);
    var base := Base(sc, db, q, x, fk);
    forall j | 0 <= j < |q.edges| ensures TouchEdge(sc, db, q, base, j) == TouchEdge(sc, db, q', base, j) {
      LoadCongruence(sc, db, q, q', base, j);
    }
    assert Touch(sc, db, q', [], false).edges == Touch(sc, db, q, x, fk).edges;
  }

  function Narrowed(q: Query, x: seq<Pred>, fk: bool): Query {
    q.(preds := q.preds + x, withFKs := q.withFKs || fk)
  }

  // ----- Running a builder again -----

  lemma {:induction false} TouchWellFormed(sc: Schema, db: Database, q: Query, x: seq<Pred>, fk: bool)
    requires WellFormed(sc, q)
    ensures WellFormed(sc, Touch(sc, db, q, x, fk))
  {
    var base := Base(sc, db, q, x, fk);
    var t := Touch(sc, db, q, x, fk);
    forall j | 0 <= j < |q.edges| && t.edges[j].Some?
      ensures t.edges[j].value.table == sc.Of(q.table).edges[j].target
      ensures sc.Of(q.table).edges[j].kind.ToOne? ==> !t.edges[j].value.withFKs
      ensures WellFormed(sc, t.edges[j].value)
    {
      if t.edges[j] != q.edges[j] {
        var e := sc.Of(q.table).edges[j];
        TouchWellFormed(sc, db, q.edges[j].value, [EdgePred(e, base)], e.kind.ToMany?);
      }
    }
  }

  /** A builder that was run with the predicates `x` returns the same when it is run again,
      however many of those predicates are appended once more. */
  lemma {:induction false} RerunNarrowed(sc: Schema, db: Database, q: Query,
                                         x: seq<Pred>, fk: bool, y: seq<Pred>, fk': bool)
    requires WellFormed(sc, q)
    requires forall i :: 0 <= i < |y| ==> y[i] in x
    requires fk' ==> fk
    ensures WellFormed(sc, Touch(sc, db, q, x, fk))
    ensures Run(sc, db, Touch(sc, db, q, x, fk), y, fk') == Run(sc, db, q, x, fk)
  {
    TouchWellFormed(sc, db, q, x, fk);
    var t := Touch(sc, db, q, x, fk);
    forall r ensures HoldsAll(t.preds + y, r) == HoldsAll(q.preds + x, r) {
      HoldsAllConcat(t.preds, y, r);
      HoldsAllConcat(q.preds, x, r);
    }
    SameBase(sc, db, q, x, fk, t, y, fk');
    var base := Base(sc, db, q, x, fk);
    if base != [] && BadField(sc.Of(q.table), q.fields).None? {
      forall j | 0 <= j < |q.edges| && Load(sc, db, q, base, j).Ok?
        ensures LoadEdge(sc, db, q, base, j) == LoadEdge(sc, db, t, base, j)
      {
        var e := sc.Of(q.table).edges[j];
        assert t.edges[j] == TouchEdge(sc, db, q, base, j);
        if !Skipped(e, q.edges[j], base) {
          var p := [EdgePred(e, base)];
          RerunNarrowed(sc, db, q.edges[j].value, p, e.kind.ToMany?, p, e.kind.ToMany?);
        }
      }
    }
    RunCongruence(sc, db, q, x, fk, t, y, fk');
  }

  /** The builder's contents after `times` runs. */
  ghost function TouchMany(sc: Schema, db: Database, q: Query, times: nat): (r: Query)
    requires WellFormed(sc, q)
    ensures WellFormed(sc, r)
  {
    if times == 0 then q
    else
      TouchWellFormed(sc, db, TouchMany(sc, db, q, times - 1), [], false);
      Touch(sc, db, TouchMany(sc, db, q, times - 1), [], false)
  }

  /** Over an unchanged database the same builder returns the same entities and edges every time,
      although each run appends more predicates to its nested queries. */
  lemma {:induction false} RerunReturnsSame(sc: Schema, db: Database, q: Query, times: nat)
    requires WellFormed(sc, q)
    ensures Run(sc, db, TouchMany(sc, db, q, times), [], false) == Run(sc, db, q, [], false)
  {
    hide *;
    TouchManyStep(sc, db, q, times);
    if times != 0 {
      RerunReturnsSame(sc, db, q, times - 1);
      RerunNarrowed(sc, db, TouchMany(sc, db, q, times - 1), [], false, [], false);
    }
  }

  lemma TouchManyStep(sc: Schema, db: Database, q: Query, times: nat)
    requires WellFormed(sc, q)
    ensures times == 0 ==> TouchMany(sc, db, q, times) == q
    ensures times != 0 ==>
              TouchMany(sc, db, q, times) == Touch(sc, db, TouchMany(sc, db, q, times - 1), [], false)
  {
    hide Touch, WellFormed;
  }

  // ----- Clones -----

  /** `Clone` copies everything except the request for foreign keys. */
  ghost function CloneOf(q: Query): (c: Query)
    ensures |c.edges| == |q.edges| && c.table == q.table
  {
    q.(withFKs := false,
       edges := seq(|q.edges|, j requires 0 <= j < |q.edges| =>
         if q.edges[j].None? then None else Some(CloneOf(q.edges[j].value))))
  }

  lemma CloneEdge(q: Query, j: nat)
    requires j < |q.edges|
    ensures CloneOf(q).edges[j] == if q.edges[j].None? then None else Some(CloneOf(q.edges[j].value))
  {
  }

  lemma {:induction false} CloneWellFormed(sc: Schema, q: Query)
    requires WellFormed(sc, q)
    ensures WellFormed(sc, CloneOf(q))
  {
    forall j | 0 <= j < |q.edges| && q.edges[j].Some? ensures WellFormed(sc, CloneOf(q).edges[j].value) {
      CloneWellFormed(sc, q.edges[j].value);
    }
  }

  /** The dropped flags make no difference: wherever they matter the loader sets them again. */
  lemma {:induction false} CloneReturnsSame(sc: Schema, db: Database, q: Query, x: seq<Pred>, fk: bool)
    requires WellFormed(sc, q)
    requires q.withFKs ==> fk
    ensures WellFormed(sc, CloneOf(q))
    ensures Run(sc, db, CloneOf(q), x, fk) == Run(sc, db, q, x, fk)
  {
    CloneWellFormed(sc, q);
    var c := CloneOf(q);
    SameBase(sc, db, q, x, fk, c, x, fk);
    var base := Base(sc, db, q, x, fk);
    forall j | 0 <= j < |q.edges| ensures LoadEdge(sc, db, q, base, j) == LoadEdge(sc, db, c, base, j) {
      var e := sc.Of(q.table).edges[j];
      if !Skipped(e, q.edges[j], base) {
        CloneReturnsSame(sc, db, q.edges[j].value, [EdgePred(e, base)], e.kind.ToMany?);
      }
    }
    RunCongruence(sc, db, q, x, fk, c, x, fk);
  }

  // ----- What the loaders know about the child nodes -----

  lemma RunNodes(sc: Schema, db: Database, q: Query, x: seq<Pred>, fk: bool)
    requires WellFormed(sc, q) && Run(sc, db, q, x, fk).Ok?
    ensures forall k :: 0 <= k < |Run(sc, db, q, x, fk).value| ==>
              Run(sc, db, q, x, fk).value[k].(edges := []) == Base(sc, db, q, x, fk)[k].(edges := [])
  {
  }

  /** The child query's foreign-key predicate and the request for foreign keys make both "unexpected
      foreign-key" errors of a to-many loader impossible. */
  lemma ChildrenReferToParents(sc: Schema, db: Database, q: Query, column: Column, ids: seq<Id>)
    requires WellFormed(sc, q) && column in sc.Of(q.table).foreignKeys
    requires Run(sc, db, q, [FkIn(column, ids)], true).Ok?
    ensures forall c :: c in Run(sc, db, q, [FkIn(column, ids)], true).value ==>
              column in c.fks && c.fks[column] in ids
  {
    var x := [FkIn(column, ids)];
    var rows := FetchRows(db, q, x);
    var got := Run(sc, db, q, x, true).value;
    RunNodes(sc, db, q, x, true);
    SelectMembers(db.Rows(q.table), q.preds + x, q.order, Given(q.offset), Given(q.limit));
    forall c | c in got ensures column in c.fks && c.fks[column] in ids {
      var k :| 0 <= k < |got| && got[k] == c;
      assert rows[k] in rows;
      HoldsAllConcat(q.preds, x, rows[k]);
      assert Holds(x[0], rows[k]);
      assert c.fks == Base(sc, db, q, x, true)[k].fks;
      assert column in Columns(sc.Of(q.table), q, true);
    }
  }

  lemma ChildrenAreRequested(sc: Schema, db: Database, q: Query, ids: seq<Id>)
    requires WellFormed(sc, q)
    requires Run(sc, db, q, [IdIn(ids)], false).Ok?
    ensures forall c :: c in Run(sc, db, q, [IdIn(ids)], false).value ==> c.id in ids
  {
    var x := [IdIn(ids)];
    var rows := FetchRows(db, q, x);
    var got := Run(sc, db, q, x, false).value;
    RunNodes(sc, db, q, x, false);
    SelectMembers(db.Rows(q.table), q.preds + x, q.order, Given(q.offset), Given(q.limit));
    forall c | c in got ensures c.id in ids {
      var k :| 0 <= k < |got| && got[k] == c;
      assert rows[k] in rows;
      HoldsAllConcat(q.preds, x, rows[k]);
      assert Holds(x[0], rows[k]);
      assert c.id == Base(sc, db, q, x, false)[k].id;
    }
  }

  lemma BaseDistinct(sc: Schema, db: Database, q: Query, x: seq<Pred>, fk: bool)
    requires db.Valid() && |q.edges| == |sc.Of(q.table).edges|
    ensures DistinctNodes(Base(sc, db, q, x, fk))
  {
    SelectDistinct(db.Rows(q.table), q.preds + x, q.order, Given(q.offset), Given(q.limit));
  }

  ghost predicate DistinctNodes(nodes: seq<Node>) {
    forall i, j :: 0 <= i < j < |nodes| ==> nodes[i].id != nodes[j].id
  }

  /** The nodes with the edge in `slot` filled in from `children`. */
  ghost function AttachSlot(e: Edge, nested: Option<Query>, slot: nat, nodes: seq<Node>, children: seq<Node>): seq<Node>
    requires forall k :: 0 <= k < |nodes| ==> slot < |nodes[k].edges|
  {
    seq(|nodes|, k requires 0 <= k < |nodes| =>
      nodes[k].(edges := nodes[k].edges[slot := Attach(e, nested, nodes[k], children)]))
  }

  /** The nodes of one level after the first `|children|` edges were loaded. */
  ghost predicate LoadedUpTo(e: Entity, edges: seq<Option<Query>>, base: seq<Node>,
                             children: seq<seq<Node>>, nodes: seq<Node>)
    requires |children| <= |edges| == |e.edges|
  {
    && |nodes| == |base|
    && forall k :: 0 <= k < |base| ==>
         && nodes[k] == base[k].(edges := nodes[k].edges)
         && |nodes[k].edges| == |edges|
         && (forall j :: 0 <= j < |children| ==>
               nodes[k].edges[j] == Attach(e.edges[j], edges[j], base[k], children[j]))
         && (forall j :: |children| <= j < |edges| ==> nodes[k].edges[j] == NotLoaded)
  }

  lemma {:induction false} SameKeys(nodes: seq<Node>, base: seq<Node>, column: Column)
    requires |nodes| == |base| && forall k :: 0 <= k < |base| ==> nodes[k].fks == base[k].fks
    ensures Keys(nodes, column) == Keys(base, column)
  {
    if nodes != [] { SameKeys(nodes[..|nodes| - 1], base[..|base| - 1], column); }
  }

  lemma SameEdgePred(e: Edge, nodes: seq<Node>, base: seq<Node>)
    requires |nodes| == |base|
    requires forall k :: 0 <= k < |base| ==> nodes[k].id == base[k].id && nodes[k].fks == base[k].fks
    ensures EdgePred(e, nodes) == EdgePred(e, base)
    ensures Keys(nodes, e.column) == Keys(base, e.column)
  {
    SameKeys(nodes, base, e.column);
    assert Ids(nodes) == Ids(base);
  }

  lemma AllLoaded(e: Entity, edges: seq<Option<Query>>, base: seq<Node>, children: seq<seq<Node>>, nodes: seq<Node>)
    requires |children| == |edges| == |e.edges|
    requires LoadedUpTo(e, edges, base, children, nodes)
    ensures nodes == Assemble(e, edges, base, children)
  {
    forall k | 0 <= k < |base| ensures nodes[k] == Assemble(e, edges, base, children)[k] {
      assert nodes[k].edges == AttachEdges(e, edges, base[k], children);
    }
  }

  lemma OneMoreLoaded(e: Entity, edges: seq<Option<Query>>, base: seq<Node>, before: seq<seq<Node>>,
                      nodes: seq<Node>, children: seq<Node>, nodes': seq<Node>)
    requires |before| < |edges| == |e.edges|
    requires LoadedUpTo(e, edges, base, before, nodes)
    requires forall k :: 0 <= k < |nodes| ==> |before| < |nodes[k].edges|
    requires nodes' == AttachSlot(e.edges[|before|], edges[|before|], |before|, nodes, children)
    ensures LoadedUpTo(e, edges, base, before + [children], nodes')
  {
  }

  /** What a loader does to the nested query it is given. */
  ghost function EdgeAfter(sc: Schema, db: Database, e: Edge, nested: Option<Query>, nodes: seq<Node>): Option<Query>
    requires nested.Some? ==> WellFormed(sc, nested.value)
  {
    if Skipped(e, nested, nodes) then nested
    else Some(Touch(sc, db, nested.value, [EdgePred(e, nodes)], e.kind.ToMany?))
  }

  /** What a loader returns. */
  ghost predicate EdgeLoaded(sc: Schema, db: Database, e: Edge, slot: nat, nested: Option<Query>, nodes: seq<Node>,
                             r: Result<seq<Node>, Error>)
    requires nested.Some? && WellFormed(sc, nested.value)
    requires forall k :: 0 <= k < |nodes| ==> slot < |nodes[k].edges|
  {
    var run := if Skipped(e, nested, nodes) then Ok([])
               else Run(sc, db, nested.value, [EdgePred(e, nodes)], e.kind.ToMany?);
    r == if run.Err? then Err(run.error) else Ok(AttachSlot(e, nested, slot, nodes, run.value))
  }

  lemma StopTouching(sc: Schema, db: Database, q: Query, base: seq<Node>, n: nat)
    requires WellFormed(sc, q) && n <= |q.edges| && Load(sc, db, q, base, n).Err?
    ensures forall i :: n <= i < |q.edges| ==> TouchEdge(sc, db, q, base, i) == q.edges[i]
    ensures Load(sc, db, q, base, |q.edges|) == Load(sc, db, q, base, n)
  {
    ErrorsStay(sc, db, q, base, n, |q.edges|);
    forall i | n <= i < |q.edges| ensures Load(sc, db, q, base, i).Err? {
      ErrorsStay(sc, db, q, base, n, i);
    }
  }

  lemma {:induction false} ErrorsStay(sc: Schema, db: Database, q: Query, base: seq<Node>, n: nat, i: nat)
    requires WellFormed(sc, q) && n <= i <= |q.edges| && Load(sc, db, q, base, n).Err?
    ensures Load(sc, db, q, base, i) == Load(sc, db, q, base, n)
  {
    if n < i { ErrorsStay(sc, db, q, base, n, i - 1); }
  }

  // ----- The loop over the edges -----

  /** After `j` edges: `c` is the builder, `nodes` the entities loaded so far. */
  ghost predicate Loading(sc: Schema, db: Database, q: Query, base: seq<Node>, j: nat, c: Query, nodes: seq<Node>)
    requires WellFormed(sc, q) && j <= |q.edges|
  {
    && |c.edges| == |q.edges| && c == q.(edges := c.edges)
    && Load(sc, db, q, base, j).Ok?
    && (forall i :: 0 <= i < j ==> c.edges[i] == TouchEdge(sc, db, q, base, i))
    && (forall i :: j <= i < |q.edges| ==> c.edges[i] == q.edges[i])
    && LoadedUpTo(sc.Of(q.table), q.edges, base, Load(sc, db, q, base, j).value, nodes)
  }

  lemma LoadingStarts(sc: Schema, db: Database, q: Query, base: seq<Node>)
    requires WellFormed(sc, q) && base == Base(sc, db, q, [], false)
    ensures Loading(sc, db, q, base, 0, q, base)
  {
  }

  lemma LoadingNodes(sc: Schema, db: Database, q: Query, base: seq<Node>, j: nat, c: Query, nodes: seq<Node>)
    requires WellFormed(sc, q) && j < |q.edges| && Loading(sc, db, q, base, j, c, nodes)
    requires DistinctNodes(base)
    ensures DistinctNodes(nodes) && forall k :: 0 <= k < |nodes| ==> j < |nodes[k].edges|
  {
  }

  lemma LoadingSkips(sc: Schema, db: Database, q: Query, base: seq<Node>, j: nat, c: Query, nodes: seq<Node>)
    requires WellFormed(sc, q) && j < |q.edges| && Loading(sc, db, q, base, j, c, nodes)
    requires c.edges[j].None?
    ensures Loading(sc, db, q, base, j + 1, c, nodes)
  {
  }

  lemma LoadingSteps(sc: Schema, db: Database, q: Query, base: seq<Node>, j: nat, c: Query, nodes: seq<Node>,
                     c': Query, r: Result<seq<Node>, Error>)
    requires WellFormed(sc, q) && j < |q.edges| && Loading(sc, db, q, base, j, c, nodes)
    requires c.edges[j].Some? && forall k :: 0 <= k < |nodes| ==> j < |nodes[k].edges|
    requires c' == c.(edges := c.edges[j := EdgeAfter(sc, db, sc.Of(q.table).edges[j], c.edges[j], nodes)])
    requires EdgeLoaded(sc, db, sc.Of(q.table).edges[j], j, c.edges[j], nodes, r)
    requires r.Ok?
    ensures Loading(sc, db, q, base, j + 1, c', r.value)
  {
    EdgeSeen(sc, db, q, base, j, c, nodes, c', r);
    hide Run, Touch, TouchEdge, EdgeAfter, EdgeLoaded, WellFormed, LoadEdge, AttachSlot, LoadedUpTo;
    var e := sc.Of(q.table);
    OneMoreLoaded(e, q.edges, base, Load(sc, db, q, base, j).value, nodes, LoadEdge(sc, db, q, base, j).value, r.value);
  }

  lemma LoadingStops(sc: Schema, db: Database, q: Query, base: seq<Node>, j: nat, c: Query, nodes: seq<Node>,
                     c': Query, r: Result<seq<Node>, Error>)
    requires WellFormed(sc, q) && j < |q.edges| && Loading(sc, db, q, base, j, c, nodes)
    requires base == Base(sc, db, q, [], false) && base != [] && BadField(sc.Of(q.table), q.fields).None?
    requires c.edges[j].Some? && forall k :: 0 <= k < |nodes| ==> j < |nodes[k].edges|
    requires c' == c.(edges := c.edges[j := EdgeAfter(sc, db, sc.Of(q.table).edges[j], c.edges[j], nodes)])
    requires EdgeLoaded(sc, db, sc.Of(q.table).edges[j], j, c.edges[j], nodes, r)
    requires r.Err?
    ensures Run(sc, db, q, [], false) == Err(r.error) && c' == Touch(sc, db, q, [], false)
  {
    hide TouchEdge, EdgeAfter, EdgeLoaded, WellFormed, LoadEdge, AttachSlot, LoadedUpTo, Base, BadField, Assemble;
    EdgeSeen(sc, db, q, base, j, c, nodes, c', r);
    StopTouching(sc, db, q, base, j + 1);
    hide Load;
    assert q.preds + [] == q.preds;
    assert c'.edges == Touch(sc, db, q, [], false).edges;
  }

  /** The nested query of edge `j` is left, and its children found, as the value-level functions say. */
  lemma EdgeSeen(sc: Schema, db: Database, q: Query, base: seq<Node>, j: nat, c: Query, nodes: seq<Node>,
                 c': Query, r: Result<seq<Node>, Error>)
    requires WellFormed(sc, q) && j < |q.edges| && Loading(sc, db, q, base, j, c, nodes)
    requires c.edges[j].Some? && forall k :: 0 <= k < |nodes| ==> j < |nodes[k].edges|
    requires c' == c.(edges := c.edges[j := EdgeAfter(sc, db, sc.Of(q.table).edges[j], c.edges[j], nodes)])
    requires EdgeLoaded(sc, db, sc.Of(q.table).edges[j], j, c.edges[j], nodes, r)
    ensures c'.edges[j] == TouchEdge(sc, db, q, base, j)
    ensures LoadEdge(sc, db, q, base, j).Err? ==> r == Err(LoadEdge(sc, db, q, base, j).error)
    ensures LoadEdge(sc, db, q, base, j).Ok? ==>
              r == Ok(AttachSlot(sc.Of(q.table).edges[j], q.edges[j], j, nodes, LoadEdge(sc, db, q, base, j).value))
  {
    hide Run, Touch, AttachSlot;
    SameEdgePred(sc.Of(q.table).edges[j], nodes, base);
  }

  lemma LoadingEnds(sc: Schema, db: Database, q: Query, base: seq<Node>, c: Query, nodes: seq<Node>)
    requires WellFormed(sc, q) && Loading(sc, db, q, base, |q.edges|, c, nodes)
    requires base == Base(sc, db, q, [], false) && base != [] && BadField(sc.Of(q.table), q.fields).None?
    ensures Run(sc, db, q, [], false) == Ok(nodes) && c == Touch(sc, db, q, [], false)
  {
    AllLoaded(sc.Of(q.table), q.edges, base, Load(sc, db, q, base, |q.edges|).value, nodes);
    assert q.preds + [] == q.preds;
    assert c.edges == Touch(sc, db, q, [], false).edges;
  }
}
