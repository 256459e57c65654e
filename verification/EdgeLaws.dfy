/** Consequences of the nested-loop reading of eager loading: `First` is the head of `All`, every child
    goes to exactly one parent, and inverse edges agree. */
module EdgeLaws {
  import opened Wrappers
  import opened RowSet
  import opened Schemas
  import opened EagerLoad
  import opened EagerLoadProofs

  // ----- The entities of the top level -----

  /** What a parent's node looks like does not depend on how the parents were selected. */
  lemma LazyIgnoresSelection(sc: Schema, db: Database, q: Query, q': Query, fk: bool, r: Row)
    requires WellFormed(sc, q) && WellFormed(sc, q')
    requires q.table == q'.table && q.fields == q'.fields && q.edges == q'.edges
    requires (q.withFKs || fk) == (q'.withFKs || fk)
    ensures LazyNode(sc, db, q, fk, r) == LazyNode(sc, db, q', fk, r)
  {
    assert LazyNode(sc, db, q, fk, r).edges == LazyNode(sc, db, q', fk, r).edges;
  }

  /** `First` limits the builder to one row; without nested limits, whenever `All` would succeed it
      returns exactly the first node `All` would have returned, edges included. */
  lemma FirstIsHeadOfAll(sc: Schema, db: Database, q: Query)
    requires sc.Valid() && WellFormed(sc, q) && NoWindowsBelow(q)
    requires Run(sc, db, q.(limit := None), [], false).Ok?
    ensures Run(sc, db, q.(limit := Some(1)), [], false)
         == Ok(Take(Run(sc, db, q.(limit := None), [], false).value, 1))
  {
    var all, one := q.(limit := None), q.(limit := Some(1));
    var rows := FetchRows(db, all, []);
    assert FetchRows(db, one, []) == Take(rows, 1);
    FewerRowsSucceed(sc, db, all, [], false, one, []);
    EagerIsLazy(sc, db, all, [], false);
    EagerIsLazy(sc, db, one, [], false);
    if rows != [] { LazyIgnoresSelection(sc, db, all, one, false, rows[0]); }
    assert Run(sc, db, one, [], false).value == Take(Run(sc, db, all, [], false).value, 1);
  }

  lemma RowsWithoutWindow(db: Database, q: Query, x: seq<Pred>)
    requires Given(q.limit) == 0 && Given(q.offset) == 0
    ensures forall r :: r in FetchRows(db, q, x) <==> r in db.Rows(q.table) && HoldsAll(q.preds + x, r)
  {
    FilterMembers(db.Rows(q.table), q.preds + x);
    SortProperties(q.order, Filter(db.Rows(q.table), q.preds + x));
  }

  lemma {:induction false} LoadsIfEachLoads(sc: Schema, db: Database, q: Query, base: seq<Node>, n: nat)
    requires WellFormed(sc, q) && n <= |q.edges| && forall j :: 0 <= j < n ==> LoadEdge(sc, db, q, base, j).Ok?
    ensures Load(sc, db, q, base, n).Ok?
  {
    if n != 0 { LoadsIfEachLoads(sc, db, q, base, n - 1); }
  }

  ghost predicate Within(base: seq<Node>, base': seq<Node>) {
    forall c :: c in base' ==> c in base
  }

  /** What a loader asks for on behalf of fewer parents, it asks for on behalf of all of them. */
  lemma FewerKeys(e: Edge, base: seq<Node>, base': seq<Node>, r: Row)
    requires Within(base, base')
    ensures Holds(EdgePred(e, base'), r) ==> Holds(EdgePred(e, base), r)
    ensures e.kind.ToOne? && Keys(base, e.column) == [] ==> Keys(base', e.column) == []
  {
    KeysMembers(base, e.column);
    KeysMembers(base', e.column);
    hide Keys;
    if e.kind.ToMany? && Holds(EdgePred(e, base'), r) {
      var k' :| 0 <= k' < |base'| && Ids(base')[k'] == r.fks[e.column];
      assert base'[k'] in base';
      var k :| 0 <= k < |base| && base[k] == base'[k'];
      assert Ids(base)[k] == r.fks[e.column];
    }
    if e.kind.ToOne? && Holds(EdgePred(e, base'), r) { KeyStays(e.column, base, base', r.id); }
    if e.kind.ToOne? && Keys(base', e.column) != [] { KeyStays(e.column, base, base', Keys(base', e.column)[0]); }
  }

  lemma KeyStays(column: Column, base: seq<Node>, base': seq<Node>, id: Id)
    requires Within(base, base') && id in Keys(base', column)
    ensures id in Keys(base, column)
  {
    KeysMembers(base', column);
    KeysMembers(base, column);
    var k' :| 0 <= k' < |base'| && column in base'[k'].fks && base'[k'].fks[column] == id;
    assert base'[k'] in base';
    var k :| 0 <= k < |base| && base[k] == base'[k'];
  }

  /** A run that succeeds also succeeds on fewer rows: it reaches fewer nested queries. */
  lemma {:induction false} FewerRowsSucceed(sc: Schema, db: Database, q: Query, x: seq<Pred>, fk: bool,
                                            q': Query, x': seq<Pred>)
    requires WellFormed(sc, q) && WellFormed(sc, q') && NoWindowsBelow(q)
    requires q.table == q'.table && q.fields == q'.fields && q.edges == q'.edges && q.withFKs == q'.withFKs
    requires forall r :: r in FetchRows(db, q', x') ==> r in FetchRows(db, q, x)
    requires Run(sc, db, q, x, fk).Ok?
    ensures Run(sc, db, q', x', fk).Ok?
    decreases q
  {
    var base, base' := Base(sc, db, q, x, fk), Base(sc, db, q', x', fk);
    FewerNodes(sc, db, q, x, fk, q', x');
    if base' != [] {
      assert base'[0] in base;
      LoadParts(sc, db, q, base, |q.edges|);
      hide FetchRows, Base, EdgePred, Keys;
      forall j | 0 <= j < |q.edges| ensures LoadEdge(sc, db, q', base', j).Ok? {
        var e := sc.Of(q.table).edges[j];
        assert LoadEdge(sc, db, q, base, j).Ok?;
        forall r ensures Holds(EdgePred(e, base'), r) ==> Holds(EdgePred(e, base), r) { FewerKeys(e, base, base', r); }
        if !Skipped(e, q.edges[j], base') {
          FewerKeys(e, base, base', Row("", map[], map[]));
          var n := q.edges[j].value;
          FewerRows(db, n, EdgePred(e, base), EdgePred(e, base'));
          FewerRowsSucceed(sc, db, n, [EdgePred(e, base)], e.kind.ToMany?, n, [EdgePred(e, base')]);
        }
      }
      LoadsIfEachLoads(sc, db, q', base', |q.edges|);
    }
  }

  lemma FewerNodes(sc: Schema, db: Database, q: Query, x: seq<Pred>, fk: bool, q': Query, x': seq<Pred>)
    requires |q.edges| == |sc.Of(q.table).edges|
    requires q.table == q'.table && q.fields == q'.fields && q.edges == q'.edges && q.withFKs == q'.withFKs
    requires forall r :: r in FetchRows(db, q', x') ==> r in FetchRows(db, q, x)
    ensures Within(Base(sc, db, q, x, fk), Base(sc, db, q', x', fk))
  {
    var rows, rows' := FetchRows(db, q, x), FetchRows(db, q', x');
    var base, base' := Base(sc, db, q, x, fk), Base(sc, db, q', x', fk);
    forall c | c in base' ensures c in base {
      var k' :| 0 <= k' < |base'| && base'[k'] == c;
      assert rows'[k'] in rows';
      var k :| 0 <= k < |rows| && rows[k] == rows'[k'];
      assert base[k] == base'[k'];
    }
  }

  lemma FewerRows(db: Database, n: Query, p: Pred, p': Pred)
    requires Given(n.limit) == 0 && Given(n.offset) == 0
    requires forall r :: Holds(p', r) ==> Holds(p, r)
    ensures forall r :: r in FetchRows(db, n, [p']) ==> r in FetchRows(db, n, [p])
  {
    RowsWithoutWindow(db, n, [p]);
    RowsWithoutWindow(db, n, [p']);
    forall r | HoldsAll(n.preds + [p'], r) ensures HoldsAll(n.preds + [p], r) {
      HoldsAllConcat(n.preds, [p], r);
      HoldsAllConcat(n.preds, [p'], r);
      assert Holds([p'][0], r);
    }
  }

  function Take<T>(s: seq<T>, n: nat): seq<T> {
    if n <= |s| then s[..n] else s
  }

  lemma LazyEdgeOfNode(sc: Schema, db: Database, q: Query, r: Row, j: nat)
    requires WellFormed(sc, q) && j < |q.edges|
    ensures LazyNode(sc, db, q, false, r).edges[j] == LazyEdge(sc, db, q, r, j)
  {
  }

  // ----- Every child goes to exactly one parent -----

  /** The lists a to-many loader hands to the parents with the given identifiers, one after the other. */
  ghost function Parts(children: seq<Node>, column: Column, ids: seq<Id>): seq<Node> {
    if ids == [] then []
    else Parts(children, column, ids[..|ids| - 1]) + ByFk(children, column, ids[|ids| - 1])
  }

  ghost predicate DistinctKeys(ids: seq<Id>) {
    forall i, j :: 0 <= i < j < |ids| ==> ids[i] != ids[j]
  }

  lemma {:induction false} PartsSnoc(children: seq<Node>, c: Node, column: Column, ids: seq<Id>)
    requires DistinctKeys(ids) && column in c.fks
    ensures multiset(Parts(children + [c], column, ids)) ==
            multiset(Parts(children, column, ids)) + if c.fks[column] in ids then multiset{c} else multiset{}
  {
    if ids != [] {
      var n := |ids| - 1;
      PartsSnoc(children, c, column, ids[..n]);
      var more, less := Parts(children + [c], column, ids[..n]), Parts(children, column, ids[..n]);
      var mine := ByFk(children, column, ids[n]);
      ByFkAppend(children, c, column, ids[n]);
      assert Parts(children + [c], column, ids) == more + ByFk(children + [c], column, ids[n]);
      assert Parts(children, column, ids) == less + mine;
      hide ByFk, Parts;
      assert c.fks[column] in ids <==> c.fks[column] in ids[..n] || c.fks[column] == ids[n];
      if c.fks[column] == ids[n] {
        assert c.fks[column] !in ids[..n];
        assert multiset(mine + [c]) == multiset(mine) + multiset{c};
      }
    }
  }

  lemma ByFkAppend(children: seq<Node>, c: Node, column: Column, id: Id)
    requires column in c.fks
    ensures ByFk(children + [c], column, id) ==
            if c.fks[column] == id then ByFk(children, column, id) + [c] else ByFk(children, column, id)
  {
    assert (children + [c])[..|children|] == children;
  }

  lemma {:induction false} NoParts(column: Column, ids: seq<Id>)
    ensures Parts([], column, ids) == []
  {
    if ids != [] { NoParts(column, ids[..|ids| - 1]); }
  }

  lemma {:induction false} Partition(children: seq<Node>, column: Column, ids: seq<Id>)
    requires DistinctKeys(ids)
    requires forall c :: c in children ==> column in c.fks && c.fks[column] in ids
    ensures multiset(Parts(children, column, ids)) == multiset(children)
  {
    if children == [] {
      NoParts(column, ids);
    } else {
      var front, last := children[..|children| - 1], children[|children| - 1];
      assert children == front + [last];
      Partition(front, column, ids);
      PartsSnoc(front, last, column, ids);
    }
  }

  /** The children of all the nodes under edge `j`. */
  ghost function AllChildren(nodes: seq<Node>, j: nat): seq<Node> {
    if nodes == [] then []
    else
      var last := nodes[|nodes| - 1];
      AllChildren(nodes[..|nodes| - 1], j)
      + (if j < |last.edges| && last.edges[j].Many? then last.edges[j].nodes else [])
  }

  lemma {:induction false} ChildrenAreParts(nodes: seq<Node>, j: nat, column: Column, batch: seq<Node>)
    requires forall k :: 0 <= k < |nodes| ==>
               j < |nodes[k].edges| && nodes[k].edges[j] == Many(ByFk(batch, column, nodes[k].id))
    ensures AllChildren(nodes, j) == Parts(batch, column, Ids(nodes))
  {
    if nodes != [] {
      var n := |nodes| - 1;
      ChildrenAreParts(nodes[..n], j, column, batch);
      assert Ids(nodes)[..n] == Ids(nodes[..n]);
    }
  }

  /** The children the one batched query of edge `j` returns. */
  ghost function Batch(sc: Schema, db: Database, q: Query, j: nat): seq<Node>
    requires WellFormed(sc, q) && j < |q.edges|
  {
    var r := LoadEdge(sc, db, q, Base(sc, db, q, [], false), j);
    if r.Ok? then r.value else []
  }

  /** Whatever the nested query asks for, nested limits included: the children found by the batched
      query are dealt out to the parents, none lost, none dealt twice. */
  lemma EveryChildOnce(sc: Schema, db: Database, q: Query, j: nat)
    requires sc.Valid() && db.Valid() && WellFormed(sc, q)
    requires j < |q.edges| && q.edges[j].Some? && sc.Of(q.table).edges[j].kind.ToMany?
    requires Run(sc, db, q, [], false).Ok? && Run(sc, db, q, [], false).value != []
    ensures multiset(AllChildren(Run(sc, db, q, [], false).value, j)) == multiset(Batch(sc, db, q, j))
    ensures DistinctNodes(AllChildren(Run(sc, db, q, [], false).value, j))
  {
    var got, batch := Run(sc, db, q, [], false).value, Batch(sc, db, q, j);
    var column := sc.Of(q.table).edges[j].column;
    DealtByKey(sc, db, q, j);
    BatchRefers(sc, db, q, j);
    BaseDistinct(sc, db, q, [], false);
    assert DistinctKeys(Ids(got)) by { RunNodes(sc, db, q, [], false); }
    hide Run, Batch, WellFormed, Base, ByFk;
    ChildrenAreParts(got, j, column, batch);
    Partition(batch, column, Ids(got));
    DistinctPermutation(batch, AllChildren(got, j));
  }

  lemma DealtByKey(sc: Schema, db: Database, q: Query, j: nat)
    requires WellFormed(sc, q)
    requires j < |q.edges| && q.edges[j].Some? && sc.Of(q.table).edges[j].kind.ToMany?
    requires Run(sc, db, q, [], false).Ok? && Run(sc, db, q, [], false).value != []
    ensures var got := Run(sc, db, q, [], false).value;
      && LoadEdge(sc, db, q, Base(sc, db, q, [], false), j) == Ok(Batch(sc, db, q, j))
      && Ids(got) == Ids(Base(sc, db, q, [], false))
      && forall k :: 0 <= k < |got| ==>
           && j < |got[k].edges|
           && got[k].edges[j] == Many(ByFk(Batch(sc, db, q, j), sc.Of(q.table).edges[j].column, got[k].id))
  {
    LoadParts(sc, db, q, Base(sc, db, q, [], false), |q.edges|);
    hide LoadEdge, ByFk, FetchRows;
  }

  lemma BatchRefers(sc: Schema, db: Database, q: Query, j: nat)
    requires sc.Valid() && db.Valid() && WellFormed(sc, q)
    requires j < |q.edges| && q.edges[j].Some? && sc.Of(q.table).edges[j].kind.ToMany?
    requires LoadEdge(sc, db, q, Base(sc, db, q, [], false), j).Ok?
    ensures DistinctNodes(Batch(sc, db, q, j))
    ensures forall c :: c in Batch(sc, db, q, j) ==>
              && sc.Of(q.table).edges[j].column in c.fks
              && c.fks[sc.Of(q.table).edges[j].column] in Ids(Base(sc, db, q, [], false))
  {
    var e, n, ids := sc.Of(q.table).edges[j], q.edges[j].value, Ids(Base(sc, db, q, [], false));
    sc.EdgeColumn(q.table, j);
    ChildrenReferToParents(sc, db, n, e.column, ids);
    RunNodes(sc, db, n, [FkIn(e.column, ids)], true);
    BaseDistinct(sc, db, n, [FkIn(e.column, ids)], true);
    hide Run, WellFormed;
  }

  lemma DistinctPermutation(a: seq<Node>, b: seq<Node>)
    requires DistinctNodes(a) && multiset(a) == multiset(b)
    ensures DistinctNodes(b)
  {
    forall i, j | 0 <= i < j < |b| ensures b[i].id != b[j].id {
      if b[i].id == b[j].id {
        SameNode(a, b, i, j);
        TwiceCounted(b, i, j);
        var x :| 0 <= x < |a| && a[x] == b[i];
        OnceCounted(a, x);
      }
    }
  }

  lemma SameNode(a: seq<Node>, b: seq<Node>, i: nat, j: nat)
    requires DistinctNodes(a) && multiset(a) == multiset(b) && i < |b| && j < |b| && b[i].id == b[j].id
    ensures b[i] == b[j] && b[i] in a
  {
    assert b[i] in multiset(a) && b[j] in multiset(a);
    var x :| 0 <= x < |a| && a[x] == b[i];
    var y :| 0 <= y < |a| && a[y] == b[j];
  }

  lemma TwiceCounted(b: seq<Node>, i: nat, j: nat)
    requires i < j < |b| && b[i] == b[j]
    ensures multiset(b)[b[i]] >= 2
  {
    assert b == b[..j] + b[j..];
    assert b[..j][i] == b[i] && b[j..][0] == b[j];
    assert b[i] in multiset(b[..j]) && b[i] in multiset(b[j..]);
  }

  lemma OnceCounted(a: seq<Node>, x: nat)
    requires x < |a| && DistinctNodes(a)
    ensures multiset(a)[a[x]] == 1
  {
    assert a == a[..x] + [a[x]] + a[x + 1..];
    assert forall k :: 0 <= k < |a| && k != x ==> a[k] != a[x];
    assert a[x] !in a[..x] && a[x] !in a[x + 1..];
    assert a[x] !in multiset(a[..x]) && a[x] !in multiset(a[x + 1..]);
  }

  // ----- Inverse edges -----

  /** A query for one kind of entity that returns all of them. */
  ghost predicate Unfiltered(q: Query) {
    q.preds == [] && Given(q.limit) == 0 && Given(q.offset) == 0
  }

  lemma PlainRows(db: Database, q: Query, p: Pred)
    requires Unfiltered(q)
    ensures forall r :: r in FetchRows(db, q, [p]) <==> r in db.Rows(q.table) && Holds(p, r)
  {
    var ps := q.preds + [p];
    assert ps == [p];
    FilterMembers(db.Rows(q.table), ps);
    SortProperties(q.order, Filter(db.Rows(q.table), ps));
    forall r ensures HoldsAll(ps, r) <==> Holds(p, r) { assert ps[0] == p; }
  }

  ghost predicate HasId(nodes: seq<Node>, id: Id) {
    exists x :: 0 <= x < |nodes| && nodes[x].id == id
  }

  lemma SameRow(rows: seq<Row>, r: Row, r': Row)
    requires DistinctIds(rows) && r in rows && r' in rows && r.id == r'.id
    ensures r == r'
  {
    var i :| 0 <= i < |rows| && rows[i] == r;
    var j :| 0 <= j < |rows| && rows[j] == r';
  }

  /** The two edges over one foreign-key column agree: whatever was asked for at the top, on other edges
      or further down, a child is in a parent's loaded list exactly if the parent is the child's loaded
      parent. */
  lemma InverseEdgesAgree(sc: Schema, db: Database, qp: Query, jp: nat, kp: nat, qc: Query, jc: nat, kc: nat)
    requires sc.Valid() && db.Valid() && WellFormed(sc, qp) && WellFormed(sc, qc)
    requires jp < |qp.edges| && qp.edges[jp].Some? && Unfiltered(qp.edges[jp].value)
    requires jc < |qc.edges| && qc.edges[jc].Some? && Unfiltered(qc.edges[jc].value)
    requires Inverse(sc, qp.table, jp, qc.table, jc)
    requires Run(sc, db, qp, [], false).Ok? && kp < |Run(sc, db, qp, [], false).value|
    requires Run(sc, db, qc, [], false).Ok? && kc < |Run(sc, db, qc, [], false).value|
    ensures AgreeOn(Run(sc, db, qp, [], false).value[kp], jp, Run(sc, db, qc, [], false).value[kc], jc)
  {
    hide Run, WellFormed;
    var p := RowOfNode(sc, db, qp, kp);
    var c := RowOfNode(sc, db, qc, kc);
    ParentSide(sc, db, qp, jp, kp, c);
    ChildSide(sc, db, qc, jc, kc, c, p);
  }

  /** The row a node was read from. */
  lemma RowOfNode(sc: Schema, db: Database, q: Query, k: nat) returns (r: Row)
    requires WellFormed(sc, q) && Run(sc, db, q, [], false).Ok? && k < |Run(sc, db, q, [], false).value|
    ensures k < |FetchRows(db, q, [])| && r == FetchRows(db, q, [])[k] && r in db.Rows(q.table)
    ensures Run(sc, db, q, [], false).value[k].id == r.id
  {
    RunNodes(sc, db, q, [], false);
    SelectMembers(db.Rows(q.table), q.preds + [], q.order, Given(q.offset), Given(q.limit));
    r := FetchRows(db, q, [])[k];
    assert r in FetchRows(db, q, []);
    hide FetchRows, Columns;
    assert Base(sc, db, q, [], false)[k].id == r.id;
  }

  ghost predicate Refers(c: Row, column: Column, id: Id) {
    column in c.fks && c.fks[column] == id
  }

  ghost predicate NodeRefers(c: Node, column: Column, id: Id) {
    column in c.fks && c.fks[column] == id
  }

  lemma {:induction false} ByFkHasId(nodes: seq<Node>, column: Column, id: Id, x: Id)
    ensures HasId(ByFk(nodes, column, id), x) <==>
            exists i :: 0 <= i < |nodes| && nodes[i].id == x && NodeRefers(nodes[i], column, id)
  {
    if nodes != [] {
      var n := |nodes| - 1;
      var front, list := nodes[..n], ByFk(nodes[..n], column, id);
      ByFkHasId(front, column, id, x);
      if NodeRefers(nodes[n], column, id) {
        HasIdSnoc(list, nodes[n], x);
      } else {
        assert ByFk(nodes, column, id) == list;
      }
      hide ByFk, NodeRefers, HasId;
      if i :| 0 <= i < n && front[i].id == x && NodeRefers(front[i], column, id) {
        assert nodes[i].id == x && NodeRefers(nodes[i], column, id);
      }
      if i :| 0 <= i < n && nodes[i].id == x && NodeRefers(nodes[i], column, id) {
        assert front[i].id == x && NodeRefers(front[i], column, id);
      }
    }
  }

  lemma HasIdSnoc(nodes: seq<Node>, c: Node, x: Id)
    ensures HasId(nodes + [c], x) <==> HasId(nodes, x) || c.id == x
  {
    var all := nodes + [c];
    assert all[|nodes|] == c && forall i :: 0 <= i < |nodes| ==> all[i] == nodes[i];
    if HasId(nodes, x) {
      var i :| 0 <= i < |nodes| && nodes[i].id == x;
      assert all[i].id == x;
    }
  }

  /** A child node shows the id and, where foreign keys are fetched, the key of its row. */
  lemma ChildNode(sc: Schema, db: Database, n: Query, p: Pred, column: Column, i: nat)
    requires WellFormed(sc, n) && column in sc.Of(n.table).foreignKeys
    requires Run(sc, db, n, [p], true).Ok? && i < |Run(sc, db, n, [p], true).value|
    ensures var c, r := Run(sc, db, n, [p], true).value[i], FetchRows(db, n, [p])[i];
      c.id == r.id && forall id :: NodeRefers(c, column, id) <==> Refers(r, column, id)
  {
    RunNodes(sc, db, n, [p], true);
    assert column in Columns(sc.Of(n.table), n, true);
    hide FetchRows, Columns, Run, WellFormed;
    var b := Base(sc, db, n, [p], true)[i];
    assert Run(sc, db, n, [p], true).value[i].(edges := []) == b.(edges := []);
  }

  lemma ParentSide(sc: Schema, db: Database, q: Query, j: nat, k: nat, c: Row)
    requires sc.Valid() && db.Valid() && WellFormed(sc, q) && j < |q.edges| && q.edges[j].Some?
    requires Unfiltered(q.edges[j].value) && sc.Of(q.table).edges[j].kind.ToMany?
    requires c in db.Rows(sc.Of(q.table).edges[j].target)
    requires Run(sc, db, q, [], false).Ok? && k < |Run(sc, db, q, [], false).value|
    ensures var got := Run(sc, db, q, [], false).value[k];
      && j < |got.edges| && got.edges[j].Many?
      && (HasId(got.edges[j].nodes, c.id) <==> Refers(c, sc.Of(q.table).edges[j].column, got.id))
  {
    var e, n, base := sc.Of(q.table).edges[j], q.edges[j].value, Base(sc, db, q, [], false);
    var p, id := FkIn(e.column, Ids(base)), base[k].id;
    assert n.table == e.target && WellFormed(sc, n);
    RunEdge(sc, db, q, [], false, j, k);
    sc.EdgeColumn(q.table, j);
    var batch, rows := Run(sc, db, n, [p], true).value, FetchRows(db, n, [p]);
    assert LoadEdge(sc, db, q, base, j) == Run(sc, db, n, [p], true);
    assert Ids(base)[k] == id;
    PlainRows(db, n, p);
    hide Run, FetchRows, Base, WellFormed, ByFk, LoadEdge;
    ByFkHasId(batch, e.column, id, c.id);
    forall i | 0 <= i < |batch|
      ensures batch[i].id == rows[i].id && (NodeRefers(batch[i], e.column, id) <==> Refers(rows[i], e.column, id))
    {
      ChildNode(sc, db, n, p, e.column, i);
    }
    ChildAmong(db.Rows(n.table), rows, batch, e.column, id, c);
  }

  lemma ChildAmong(table: seq<Row>, rows: seq<Row>, batch: seq<Node>, column: Column, id: Id, c: Row)
    requires DistinctIds(table) && c in table && (forall r :: r in rows ==> r in table)
    requires |rows| == |batch| && (Refers(c, column, id) ==> c in rows)
    requires forall i :: 0 <= i < |batch| ==>
               batch[i].id == rows[i].id && (NodeRefers(batch[i], column, id) <==> Refers(rows[i], column, id))
    ensures (exists i :: 0 <= i < |batch| && batch[i].id == c.id && NodeRefers(batch[i], column, id))
        <==> Refers(c, column, id)
  {
    if i :| 0 <= i < |batch| && batch[i].id == c.id && NodeRefers(batch[i], column, id) {
      assert rows[i] in rows;
      SameRow(table, rows[i], c);
    }
    if Refers(c, column, id) {
      var i :| 0 <= i < |rows| && rows[i] == c;
      assert batch[i].id == c.id && NodeRefers(batch[i], column, id);
    }
  }

  lemma {:induction false} LastByIdFinds(nodes: seq<Node>, id: Id)
    ensures LastById(nodes, id).Some? <==> HasId(nodes, id)
    ensures LastById(nodes, id).Some? ==> LastById(nodes, id).value.id == id
  {
    if nodes != [] {
      var n := |nodes| - 1;
      LastByIdFinds(nodes[..n], id);
      assert nodes == nodes[..n] + [nodes[n]];
      HasIdSnoc(nodes[..n], nodes[n], id);
    }
  }

  lemma ChildSide(sc: Schema, db: Database, q: Query, j: nat, k: nat, c: Row, p: Row)
    requires sc.Valid() && WellFormed(sc, q) && j < |q.edges| && q.edges[j].Some?
    requires Unfiltered(q.edges[j].value) && sc.Of(q.table).edges[j].kind.ToOne?
    requires p in db.Rows(sc.Of(q.table).edges[j].target)
    requires Run(sc, db, q, [], false).Ok? && k < |Run(sc, db, q, [], false).value|
    requires k < |FetchRows(db, q, [])| && c == FetchRows(db, q, [])[k]
    ensures var got := Run(sc, db, q, [], false).value[k];
      && j < |got.edges| && got.edges[j].One?
      && (got.edges[j].node.Some? && got.edges[j].node.value.id == p.id
          <==> Refers(c, sc.Of(q.table).edges[j].column, p.id))
  {
    var e, n, base := sc.Of(q.table).edges[j], q.edges[j].value, Base(sc, db, q, [], false);
    assert n.table == e.target && WellFormed(sc, n);
    RunEdge(sc, db, q, [], false, j, k);
    sc.EdgeColumn(q.table, j);
    assert e.column in Columns(sc.Of(q.table), q, false);
    assert forall id :: NodeRefers(base[k], e.column, id) <==> Refers(c, e.column, id);
    KeysMembers(base, e.column);
    var own := IdIn(Keys(base, e.column));
    var batch := LoadEdge(sc, db, q, base, j).value;
    PlainRows(db, n, own);
    if e.column in base[k].fks {
      var key := base[k].fks[e.column];
      assert LoadEdge(sc, db, q, base, j) == Run(sc, db, n, [own], false);
      hide FetchRows, Base, WellFormed, Keys, LastById, LoadEdge, Columns;
      LastByIdFinds(batch, key);
      if key == p.id { FoundInRun(sc, db, n, own, p); }
    }
  }

  lemma FoundInRun(sc: Schema, db: Database, n: Query, own: Pred, r: Row)
    requires WellFormed(sc, n) && Run(sc, db, n, [own], false).Ok? && r in FetchRows(db, n, [own])
    ensures HasId(Run(sc, db, n, [own], false).value, r.id)
  {
    var rows := FetchRows(db, n, [own]);
    var i :| 0 <= i < |rows| && rows[i] == r;
    RunNodes(sc, db, n, [own], false);
    var batch := Run(sc, db, n, [own], false).value;
    assert batch[i].(edges := []) == Base(sc, db, n, [own], false)[i].(edges := []);
    hide Run, FetchRows, WellFormed, Columns;
    assert batch[i].id == r.id;
  }

  ghost predicate Inverse(sc: Schema, parent: TableName, jp: nat, child: TableName, jc: nat) {
    && jp < |sc.Of(parent).edges| && jc < |sc.Of(child).edges|
    && sc.Of(parent).edges[jp].kind.ToMany? && sc.Of(parent).edges[jp].target == child
    && sc.Of(child).edges[jc].kind.ToOne? && sc.Of(child).edges[jc].target == parent
    && sc.Of(parent).edges[jp].column == sc.Of(child).edges[jc].column
  }

  ghost predicate AgreeOn(parent: Node, jp: nat, child: Node, jc: nat) {
    && jp < |parent.edges| && parent.edges[jp].Many?
    && jc < |child.edges| && child.edges[jc].One?
    && (HasId(parent.edges[jp].nodes, child.id) <==>
          child.edges[jc].node.Some? && child.edges[jc].node.value.id == parent.id)
  }

  /** Institutions and fiat currencies are such a pair. */
  lemma CurrencyInstitutionInverse()
    ensures Inverse(STABLENODE, CURRENCIES, 2, INSTITUTIONS, 0)
  {
    StablenodeSchemaValid();
  }
}
