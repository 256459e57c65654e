/** The mutable query builders.  Every method's effect on the builder and its result are tied to
    the functions of module EagerLoad. */
module QueryBuilders {
  import opened Wrappers
  import opened RowSet
  import opened Schemas
  import opened EagerLoad
  import opened EagerLoadProofs

  class QueryBuilder {
    const sc: Schema
    const table: TableName
    var predicates: seq<Pred>
    var order: seq<Row -> int>
    var limit: Option<nat>
    var offset: Option<nat>
    var fields: seq<Column>
    var withFKs: bool
    var nested: seq<QueryBuilder?>

    ghost var Contents: Query
    ghost var Repr: set<QueryBuilder>

    ghost predicate Valid()
      reads this, Repr
      ensures Valid() ==> this in Repr
      decreases Repr
    {
      && this in Repr
      && Contents == Query(table, predicates, order, limit, offset, fields, withFKs, Contents.edges)
      && |nested| == |Contents.edges|
      && WellFormed(sc, Contents)
      && (forall j :: 0 <= j < |nested| ==> (nested[j] == null <==> Contents.edges[j].None?))
      && (forall j :: 0 <= j < |nested| && nested[j] != null ==>
            && nested[j] in Repr && nested[j].Repr < Repr && this !in nested[j].Repr
            && nested[j].sc == sc && nested[j].Valid() && Contents.edges[j] == Some(nested[j].Contents))
      && (forall i, j :: 0 <= i < j < |nested| && nested[i] != null && nested[j] != null ==>
            nested[i].Repr !! nested[j].Repr)
    }

    lemma ContentsWellFormed()
      requires Valid()
      ensures WellFormed(sc, Contents) && Contents.table == table
      ensures Contents.withFKs == withFKs && Contents.fields == fields
    {
    }

    lemma NestedShape()
      requires Valid()
      ensures |nested| == |Contents.edges|
      ensures CloneOf(Contents) == Contents.(withFKs := false, edges := CloneOf(Contents).edges)
      ensures forall j :: 0 <= j < |nested| ==> (nested[j] == null <==> Contents.edges[j].None?)
      ensures forall j :: 0 <= j < |nested| && nested[j] != null ==>
                Contents.edges[j] == Some(nested[j].Contents) && nested[j].Repr < Repr
    {
      hide WellFormed;
    }

    constructor (sc: Schema, table: TableName)
      ensures Valid() && fresh(Repr)
      ensures this.sc == sc && this.table == table
      ensures Contents == Query(table, [], [], None, None, [], false, seq(|sc.Of(table).edges|, _ => None))
    {
      this.sc, this.table := sc, table;
      predicates, order, limit, offset, fields, withFKs := [], [], None, None, [], false;
      nested := seq(|sc.Of(table).edges|, _ => null);
      Contents := Query(table, [], [], None, None, [], false, seq(|sc.Of(table).edges|, _ => None));
      Repr := {this};
    }

    /** A copy of `src`'s own settings, with no edge requested. */
    constructor Copy(src: QueryBuilder)
      requires src.Valid()
      ensures Valid() && fresh(Repr) && sc == src.sc && table == src.table
      ensures Contents == src.Contents.(withFKs := false, edges := seq(|src.Contents.edges|, _ => None))
    {
      sc, table := src.sc, src.table;
      predicates, order, limit, offset, fields, withFKs :=
        src.predicates, src.order, src.limit, src.offset, src.fields, false;
      nested := seq(|src.nested|, _ => null);
      Contents := src.Contents.(withFKs := false, edges := seq(|src.Contents.edges|, _ => None));
      Repr := {this};
    }

    method Where(ps: seq<Pred>)
      requires Valid()
      modifies this
      ensures Valid() && Repr == old(Repr)
      ensures Contents == old(Contents).(preds := old(Contents).preds + ps)
    {
      predicates := predicates + ps;
      Contents := Contents.(preds := predicates);
    }

    method Limit(n: nat)
      requires Valid()
      modifies this
      ensures Valid() && Repr == old(Repr)
      ensures Contents == old(Contents).(limit := Some(n))
    {
      limit := Some(n);
      Contents := Contents.(limit := limit);
    }

    method Offset(n: nat)
      requires Valid()
      modifies this
      ensures Valid() && Repr == old(Repr)
      ensures Contents == old(Contents).(offset := Some(n))
    {
      offset := Some(n);
      Contents := Contents.(offset := offset);
    }

    method Order(terms: seq<Row -> int>)
      requires Valid()
      modifies this
      ensures Valid() && Repr == old(Repr)
      ensures Contents == old(Contents).(order := old(Contents).order + terms)
    {
      order := order + terms;
      Contents := Contents.(order := order);
    }

    method Select(columns: seq<Column>)
      requires Valid()
      modifies this
      ensures Valid() && Repr == old(Repr)
      ensures Contents == old(Contents).(fields := old(Contents).fields + columns)
    {
      fields := fields + columns;
      Contents := Contents.(fields := fields);
    }

    /** Requests edge `j`; `query` is the new nested builder the options were applied to. */
    method With(j: nat, query: QueryBuilder)
      requires Valid() && query.Valid() && query.Repr !! Repr
      requires j < |sc.Of(table).edges| && query.sc == sc && query.table == sc.Of(table).edges[j].target
      requires !query.withFKs
      modifies this
      ensures Valid() && Repr == old(Repr) + query.Repr
      ensures Contents == old(Contents).(edges := old(Contents).edges[j := Some(query.Contents)])
    {
      nested := nested[j := query];
      Contents := Contents.(edges := Contents.edges[j := Some(query.Contents)]);
      Repr := Repr + query.Repr;
    }

    /** A deep copy that shares no builder with the original. */
    method Clone() returns (c: QueryBuilder)
      requires Valid()
      ensures c.Valid() && fresh(c.Repr) && c.sc == sc && c.table == table
      ensures c.Contents == CloneOf(Contents)
      decreases Repr, 0
    {
      hide *;
      c := new QueryBuilder.Copy(this);
      ghost var goal := CloneOf(Contents);
      NestedShape();
      for j := 0 to |nested|
        modifies c
        invariant c.Valid() && fresh(c.Repr)
        invariant |c.Contents.edges| == |goal.edges| && c.Contents == goal.(edges := c.Contents.edges)
        invariant forall i :: 0 <= i < j ==> c.Contents.edges[i] == goal.edges[i]
        invariant forall i :: j <= i < |goal.edges| ==> c.Contents.edges[i] == None
      {
        CloneEdge(Contents, j);
        if nested[j] != null { CloneInto(c, j); }
      }
      assert c.Contents.edges == goal.edges;
    }

    /** Clones the nested builder of edge `j` into the builder `c` of the same entity. */
    method CloneInto(c: QueryBuilder, j: nat)
      requires Valid() && c.Valid() && c.Repr !! Repr && c.sc == sc && c.table == table
      requires j < |nested| && nested[j] != null
      modifies c
      ensures c.Valid() && fresh(c.Repr - old(c.Repr))
      ensures c.Contents == old(c.Contents).(edges := old(c.Contents).edges[j := Some(CloneOf(nested[j].Contents))])
      decreases nested[j].Repr, 1
    {
      assert nested[j].table == sc.Of(table).edges[j].target;
      var n := nested[j].Clone();
      c.With(j, n);
    }

    /** Leaves the builder limited to one row. */
    method First(db: Database) returns (r: Result<Node, Error>)
      requires Valid() && sc.Valid() && db.Valid()
      modifies Repr
      ensures Valid() && Repr == old(Repr)
      ensures Contents == Touch(sc, db, old(Contents).(limit := Some(1)), [], false)
      ensures var all := Run(sc, db, old(Contents).(limit := Some(1)), [], false);
              r == if all.Err? then Err(all.error) else if all.value == [] then Err(NotFound) else Ok(all.value[0])
    {
      Limit(1);
      var all := All(db);
      if all.Err? { return Err(all.error); }
      r := if all.value == [] then Err(NotFound) else Ok(all.value[0]);
    }

    /** Leaves the builder limited to two rows; answers whether exactly one row matches. */
    method Only(db: Database) returns (r: Result<Node, Error>)
      requires Valid() && sc.Valid() && db.Valid()
      modifies Repr
      ensures Valid() && Repr == old(Repr)
      ensures Contents == Touch(sc, db, old(Contents).(limit := Some(2)), [], false)
      ensures var two := Run(sc, db, old(Contents).(limit := Some(2)), [], false);
              var matching := FetchRows(db, old(Contents).(limit := None), []);
              match r
              case Ok(node) => |matching| == 1 && node.id == matching[0].id && two == Ok([node])
              case Err(NotFound) => matching == [] && two == Ok([])
              case Err(NotSingular) => |matching| >= 2 && two.Ok?
              case Err(e) => two == Err(e)
    {
      ghost var q := Contents.(limit := Some(2));
      Limit(2);
      var all := All(db);
      if all.Err? { return Err(all.error); }
      if |all.value| == 0 { return Err(NotFound); }
      if |all.value| > 1 { return Err(NotSingular); }
      RunNodes(sc, db, q, [], false);
      assert all.value[0].id == FetchRows(db, q, [])[0].id && all.value == [all.value[0]];
      r := Ok(all.value[0]);
    }

    /** Leaves the builder limited to one row and with the identifier appended to its projection.  The
        selected columns are scanned into a list of identifiers, so a projection that was there before
        makes the scan fail. */
    method Exist(db: Database) returns (r: Result<bool, Error>)
      requires Valid()
      modifies this
      ensures Valid() && Repr == old(Repr)
      ensures Contents == old(Contents).(limit := Some(1), fields := old(Contents).fields + ["id"])
      ensures var bad := BadField(sc.Of(table), old(Contents).fields + ["id"]);
              if bad.Some? then r == Err(InvalidField(bad.value))
              else if old(Contents).fields != [] then r == Err(ColumnsDoNotMatch(|old(Contents).fields| + 1))
              else r == Ok(FetchRows(db, old(Contents).(limit := None), []) != [])
    {
      Limit(1);
      Select(["id"]);
      var bad := PrepareQuery();
      if bad.Some? { return Err(InvalidField(bad.value)); }
      if |fields| > 1 { return Err(ColumnsDoNotMatch(|fields|)); }
      var rows := RowSet.Select(db.Rows(table), predicates, order, Given(offset), 1);
      assert old(Contents).preds + [] == predicates;
      r := Ok(rows != []);
    }

    /** `prepareQuery`: the requested fields must be columns of the table. */
    method PrepareQuery() returns (bad: Option<Column>)
      ensures bad == BadField(sc.Of(table), fields)
    {
      var e := sc.Of(table);
      for i := 0 to |fields|
        invariant BadField(e, fields) == BadField(e, fields[i..])
      {
        if fields[i] !in e.columns && fields[i] !in e.foreignKeys { return Some(fields[i]); }
      }
      bad := None;
    }

    /** `All` and `sqlAll`.  The result is `Run` of the builder's contents, so it has only the error
        of an invalid field, never one about foreign keys; the builder is left as `Touch` says. */
    method All(db: Database) returns (r: Result<seq<Node>, Error>)
      requires Valid() && sc.Valid() && db.Valid()
      modifies Repr
      ensures Valid() && Repr == old(Repr)
      ensures r == Run(sc, db, old(Contents), [], false)
      ensures Contents == Touch(sc, db, old(Contents), [], false)
      decreases Repr, 3
    {
      var bad := PrepareQuery();
      if bad.Some? {
        assert Contents.preds + [] == Contents.preds;
        return Err(InvalidField(bad.value));
      }
      var nodes := FetchNodes(db);
      if nodes == [] {
        assert Contents.preds + [] == Contents.preds;
        return Ok([]);
      }
      BaseDistinct(sc, db, Contents, [], false);
      r := LoadAll(nodes, db);
    }

    /** The part of `sqlAll` after the rows were fetched: one requested edge after the other. */
    method LoadAll(base: seq<Node>, db: Database) returns (r: Result<seq<Node>, Error>)
      requires Valid() && sc.Valid() && db.Valid()
      requires base != [] && base == Base(sc, db, Contents, [], false) && DistinctNodes(base)
      requires BadField(sc.Of(table), fields).None? && |nested| == |sc.Of(table).edges|
      modifies Repr
      ensures Valid() && Repr == old(Repr)
      ensures r == Run(sc, db, old(Contents), [], false)
      ensures Contents == Touch(sc, db, old(Contents), [], false)
      decreases Repr, 2
    {
      hide Run, Touch, Loading, EdgeLoaded, EdgeAfter, Base, WellFormed;
      var nodes := base;
      ghost var q := Contents;
      LoadingStarts(sc, db, q, base);
      for j := 0 to |nested|
        invariant Valid() && Repr == old(Repr) && |nested| == |q.edges|
        invariant Loading(sc, db, q, base, j, Contents, nodes)
      {
        ghost var c := Contents;
        if nested[j] == null {
          LoadingSkips(sc, db, q, base, j, c, nodes);
        } else {
          LoadingNodes(sc, db, q, base, j, c, nodes);
          var step := LoadEdgeAt(j, nodes, db);
          if step.Err? {
            LoadingStops(sc, db, q, base, j, c, nodes, Contents, step);
            return Err(step.error);
          }
          LoadingSteps(sc, db, q, base, j, c, nodes, Contents, step);
          nodes := step.value;
        }
      }
      LoadingEnds(sc, db, q, base, Contents, nodes);
      r := Ok(nodes);
    }

    /** The rows of this level, scanned into nodes. */
    method FetchNodes(db: Database) returns (nodes: seq<Node>)
      requires Valid()
      ensures nodes == Base(sc, db, Contents, [], false)
    {
      var e := sc.Of(table);
      var fks := withFKs || exists j :: 0 <= j < |nested| && nested[j] != null && e.edges[j].kind.ToOne?;
      var rows := RowSet.Select(db.Rows(table), predicates, order, Given(offset), Given(limit));
      nodes := ProjectAll(ColumnList(e, fields, fks), rows, |nested|);
      assert Contents.preds + [] == predicates;
      assert fks == (withFKs || false || WantsToOne(e, Contents.edges));
    }

    /** Running one nested builder leaves its siblings alone, so the builder stays valid once its
        contents have caught up. */
    twostate lemma CaughtUp(j: nat)
      requires old(Valid()) && j < |nested| && nested == old(nested) && nested[j] != null
      requires Repr == old(Repr) && withFKs == old(withFKs) && fields == old(fields) && predicates == old(predicates)
      requires order == old(order) && limit == old(limit) && offset == old(offset)
      requires forall b :: b in old(Repr) && b != this && b !in old(nested[j].Repr) ==> unchanged(b)
      requires nested[j].Valid() && nested[j].Repr == old(nested[j].Repr) && j < |old(Contents).edges|
      requires Contents == old(Contents).(edges := old(Contents).edges[j := Some(nested[j].Contents)])
      requires WellFormed(sc, Contents)
      ensures Valid()
    {
      hide WellFormed;
      forall i | 0 <= i < |nested| && i != j && nested[i] != null
        ensures unchanged(nested[i]) && nested[i].Valid()
      {
        assert old(nested[i].Repr) !! old(nested[j].Repr) && nested[i] in old(nested[i].Repr);
      }
    }

    lemma ChildFacts(j: nat)
      requires Valid() && sc.Valid() && j < |nested| && nested[j] != null
      ensures |nested| == |Contents.edges| == |sc.Of(table).edges| && Contents.table == table
      ensures nested[j].Valid() && nested[j].Repr < Repr && this !in nested[j].Repr && nested[j].sc == sc
      ensures Contents.edges[j] == Some(nested[j].Contents) && WellFormed(sc, nested[j].Contents)
      ensures nested[j].table == sc.Of(table).edges[j].target
      ensures sc.Of(table).edges[j].kind.ToOne? ==> !nested[j].withFKs
    {
    }

    /** Loads the requested edge `j` into the nodes, running its nested builder. */
    method LoadEdgeAt(j: nat, nodes: seq<Node>, db: Database) returns (r: Result<seq<Node>, Error>)
      requires Valid() && sc.Valid() && db.Valid()
      requires j < |nested| && nested[j] != null && j < |sc.Of(table).edges|
      requires DistinctNodes(nodes) && forall k :: 0 <= k < |nodes| ==> j < |nodes[k].edges|
      modifies this`Contents, nested[j].Repr
      ensures Valid() && Repr == old(Repr) && nested == old(nested)
      ensures Contents == old(Contents).(edges := old(Contents).edges[j :=
                EdgeAfter(sc, db, sc.Of(table).edges[j], old(Contents).edges[j], nodes)])
      ensures EdgeLoaded(sc, db, sc.Of(table).edges[j], j, old(Contents).edges[j], nodes, r)
      decreases nested[j].Repr, 7
    {
      hide *;
      var e := sc.Of(table).edges[j];
      var child := nested[j];
      ChildFacts(j);
      ContentsWellFormed();
      sc.EdgeColumn(table, j);
      label Before:
      r := LoadNested(e, j, nodes, child, db);
      child.ContentsWellFormed();
      WellFormedUpdate(sc, Contents, j, child.Contents);
      Contents := Contents.(edges := Contents.edges[j := Some(child.Contents)]);
      CaughtUp@Before(j);
    }
  }

  lemma WellFormedUpdate(sc: Schema, q: Query, j: nat, n: Query)
    requires WellFormed(sc, q) && WellFormed(sc, n) && j < |q.edges| == |sc.Of(q.table).edges|
    requires n.table == sc.Of(q.table).edges[j].target && (sc.Of(q.table).edges[j].kind.ToOne? ==> !n.withFKs)
    ensures WellFormed(sc, q.(edges := q.edges[j := Some(n)]))
  {
  }

  // ----- The loaders -----

  method LoadNested(e: Edge, slot: nat, parents: seq<Node>, query: QueryBuilder, db: Database)
    returns (r: Result<seq<Node>, Error>)
    requires query.Valid() && query.sc.Valid() && db.Valid()
    requires e.kind.ToMany? ==> e.column in query.sc.Of(query.table).foreignKeys
    requires e.kind.ToOne? ==> !query.withFKs
    requires DistinctNodes(parents) && forall k :: 0 <= k < |parents| ==> slot < |parents[k].edges|
    modifies query.Repr
    ensures query.Valid() && query.Repr == old(query.Repr)
    ensures e.kind.ToOne? ==> !query.withFKs
    ensures Some(query.Contents) == EdgeAfter(query.sc, db, e, Some(old(query.Contents)), parents)
    ensures EdgeLoaded(query.sc, db, e, slot, Some(old(query.Contents)), parents, r)
    decreases query.Repr, 6
  {
    if e.kind.ToMany? {
      r := LoadToMany(e, slot, parents, query, db);
    } else {
      r := LoadToOne(e, slot, parents, query, db);
    }
  }

  /** The middle of every loader: narrow the nested builder, for good, and run it. */
  method RunNarrowed(query: QueryBuilder, p: Pred, fk: bool, db: Database) returns (r: Result<seq<Node>, Error>)
    requires query.Valid() && query.sc.Valid() && db.Valid()
    modifies query.Repr
    ensures query.Valid() && query.Repr == old(query.Repr)
    ensures r == Run(query.sc, db, old(query.Contents), [p], fk)
    ensures query.Contents == Touch(query.sc, db, old(query.Contents), [p], fk)
    decreases query.Repr, 4
  {
    ghost var q := query.Contents;
    if fk {
      query.withFKs := true;
      query.Contents := query.Contents.(withFKs := true);
    }
    query.Where([p]);
    RunAfterWhere(query.sc, db, q, [p], fk);
    assert query.Contents == Narrowed(q, [p], fk);
    r := query.All(db);
  }

  /** A to-many loader: one query for the children of all parents. */
  method LoadToMany(e: Edge, slot: nat, parents: seq<Node>, query: QueryBuilder, db: Database)
    returns (r: Result<seq<Node>, Error>)
    requires query.Valid() && query.sc.Valid() && db.Valid()
    requires e.kind.ToMany? && e.column in query.sc.Of(query.table).foreignKeys
    requires DistinctNodes(parents) && forall k :: 0 <= k < |parents| ==> slot < |parents[k].edges|
    modifies query.Repr
    ensures query.Valid() && query.Repr == old(query.Repr)
    ensures Some(query.Contents) == EdgeAfter(query.sc, db, e, Some(old(query.Contents)), parents)
    ensures EdgeLoaded(query.sc, db, e, slot, Some(old(query.Contents)), parents, r)
    decreases query.Repr, 5
  {
    ghost var q := query.Contents;
    var fks, index, nodes := IndexParents(slot, parents);
    var run := RunNarrowed(query, FkIn(e.column, fks), true, db);
    if run.Err? { return Err(run.error); }
    ChildrenReferToParents(query.sc, db, q, e.column, fks);
    r := DistributeMany(e.column, slot, nodes, index, run.value);
    SlotFilled(e, Some(q), slot, parents, nodes, Many([]), run.value, r.value);
  }

  lemma SlotFilled(e: Edge, nested: Option<Query>, slot: nat, parents: seq<Node>, cleared: seq<Node>,
                   v: EdgeValue, children: seq<Node>, nodes: seq<Node>)
    requires nested.Some? && |parents| == |cleared| == |nodes|
    requires forall k :: 0 <= k < |parents| ==> slot < |parents[k].edges| == |cleared[k].edges|
    requires forall k :: 0 <= k < |parents| ==> cleared[k] == parents[k].(edges := parents[k].edges[slot := v])
    requires forall k :: 0 <= k < |parents| ==>
               nodes[k] == cleared[k].(edges := cleared[k].edges[slot := Attach(e, nested, cleared[k], children)])
    ensures nodes == AttachSlot(e, nested, slot, parents, children)
  {
    forall k | 0 <= k < |parents| ensures nodes[k] == AttachSlot(e, nested, slot, parents, children)[k] {
      var a := Attach(e, nested, parents[k], children);
      assert parents[k].edges[slot := v][slot := a] == parents[k].edges[slot := a];
    }
  }

  method IndexParents(slot: nat, parents: seq<Node>) returns (fks: seq<Id>, index: map<Id, nat>, nodes: seq<Node>)
    requires DistinctNodes(parents) && forall k :: 0 <= k < |parents| ==> slot < |parents[k].edges|
    ensures fks == Ids(parents) && |nodes| == |parents|
    ensures forall k :: 0 <= k < |parents| ==> nodes[k] == parents[k].(edges := parents[k].edges[slot := Many([])])
    ensures forall k :: 0 <= k < |parents| ==> parents[k].id in index && index[parents[k].id] == k
    ensures forall id :: id in index ==> index[id] < |parents| && parents[index[id]].id == id
  {
    fks, index, nodes := [], map[], parents;
    for i := 0 to |parents|
      invariant fks == Ids(parents)[..i] && |nodes| == |parents|
      invariant forall k :: 0 <= k < i ==> nodes[k] == parents[k].(edges := parents[k].edges[slot := Many([])])
      invariant forall k :: i <= k < |parents| ==> nodes[k] == parents[k]
      invariant forall k :: 0 <= k < i ==> parents[k].id in index && index[parents[k].id] == k
      invariant forall id :: id in index ==> index[id] < i && parents[index[id]].id == id
    {
      fks := fks + [parents[i].id];
      index := index[parents[i].id := i];
      nodes := nodes[i := parents[i].(edges := parents[i].edges[slot := Many([])])];
    }
  }

  /** A to-one loader: one query for all referenced entities. */
  method LoadToOne(e: Edge, slot: nat, parents: seq<Node>, query: QueryBuilder, db: Database)
    returns (r: Result<seq<Node>, Error>)
    requires query.Valid() && query.sc.Valid() && db.Valid()
    requires e.kind.ToOne?
    requires forall k :: 0 <= k < |parents| ==> slot < |parents[k].edges|
    modifies query.Repr
    ensures query.Valid() && query.Repr == old(query.Repr)
    ensures Some(query.Contents) == EdgeAfter(query.sc, db, e, Some(old(query.Contents)), parents)
    ensures EdgeLoaded(query.sc, db, e, slot, Some(old(query.Contents)), parents, r)
    decreases query.Repr, 5
  {
    ghost var q := query.Contents;
    hide WellFormed, Run, Touch, IndexesKeys;
    var nodes := ClearOne(slot, parents);
    SameKeys(nodes, parents, e.column);
    var ids, index := IndexKeys(e.column, nodes);
    if ids == [] {
      KeysMembers(parents, e.column);
      SlotFilled(e, Some(q), slot, parents, nodes, One(None), [], nodes);
      return Ok(nodes);
    }
    var run := RunNarrowed(query, IdIn(ids), false, db);
    if run.Err? { return Err(run.error); }
    ChildrenAreRequested(query.sc, db, q, ids);
    r := DistributeOne(e.column, slot, nodes, index, run.value);
    SlotFilled(e, Some(q), slot, parents, nodes, One(None), run.value, r.value);
  }

  method ClearOne(slot: nat, parents: seq<Node>) returns (nodes: seq<Node>)
    requires forall k :: 0 <= k < |parents| ==> slot < |parents[k].edges|
    ensures |nodes| == |parents|
    ensures forall k :: 0 <= k < |parents| ==> nodes[k] == parents[k].(edges := parents[k].edges[slot := One(None)])
  {
    nodes := parents;
    for i := 0 to |parents|
      invariant |nodes| == |parents|
      invariant forall k :: 0 <= k < i ==> nodes[k] == parents[k].(edges := parents[k].edges[slot := One(None)])
      invariant forall k :: i <= k < |parents| ==> nodes[k] == parents[k]
    {
      nodes := nodes[i := parents[i].(edges := parents[i].edges[slot := One(None)])];
    }
  }

  method IndexKeys(column: Column, parents: seq<Node>) returns (ids: seq<Id>, index: map<Id, seq<nat>>)
    ensures ids == Keys(parents, column)
    ensures IndexesKeys(column, parents, index)
  {
    ids, index := [], map[];
    hide Keys, Positions;
    IndexNil(column);
    for i := 0 to |parents|
      invariant ids == Keys(parents[..i], column)
      invariant IndexesKeys(column, parents[..i], index)
    {
      IndexSnoc(column, parents, i);
      if column in parents[i].fks {
        var fk := parents[i].fks[column];
        if fk !in index {
          NoPositions(column, parents[..i], fk);
          ids := ids + [fk];
          index := index[fk := [i]];
        } else {
          index := index[fk := index[fk] + [i]];
        }
      }
    }
    assert parents[..|parents|] == parents;
  }

  // ----- Handing the child nodes out -----

  /** The second loop of a to-many loader: `index` says which parent an identifier stands for. */
  method DistributeMany(column: Column, slot: nat, parents: seq<Node>, index: map<Id, nat>, neighbors: seq<Node>)
    returns (r: Result<seq<Node>, Error>)
    requires forall k :: 0 <= k < |parents| ==> slot < |parents[k].edges| && parents[k].edges[slot] == Many([])
    requires forall k :: 0 <= k < |parents| ==> parents[k].id in index && index[parents[k].id] == k
    requires forall id :: id in index ==> index[id] < |parents| && parents[index[id]].id == id
    ensures r.Ok? <==> forall c :: c in neighbors ==> column in c.fks && c.fks[column] in index
    ensures r.Ok? ==> |r.value| == |parents| && forall k :: 0 <= k < |parents| ==>
              r.value[k] == parents[k].(edges := parents[k].edges[slot := Many(ByFk(neighbors, column, parents[k].id))])
  {
    var nodes := parents;
    forall k | 0 <= k < |parents|
      ensures parents[k] == parents[k].(edges :=
                parents[k].edges[slot := Many(ByFk(neighbors[..0], column, parents[k].id))])
    {
      assert parents[k].edges[slot := Many([])] == parents[k].edges;
    }
    hide ByFk;
    for i := 0 to |neighbors|
      invariant |nodes| == |parents|
      invariant forall k :: 0 <= k < |parents| ==>
                  nodes[k] == parents[k].(edges :=
                    parents[k].edges[slot := Many(ByFk(neighbors[..i], column, parents[k].id))])
      invariant forall c :: c in neighbors[..i] ==> column in c.fks && c.fks[column] in index
    {
      var n := neighbors[i];
      assert n in neighbors;
      assert neighbors[..i + 1][..i] == neighbors[..i];
      if column !in n.fks { return Err(ForeignKeyIsNil(column, n.id)); }
      if n.fks[column] !in index { return Err(UnexpectedForeignKey(column, n.fks[column])); }
      var at := index[n.fks[column]];
      var node := nodes[at];
      ghost var was, mine := nodes, ByFk(neighbors[..i], column, parents[at].id);
      assert parents[at].edges[slot := Many(mine)][slot := Many(mine + [n])]
          == parents[at].edges[slot := Many(mine + [n])];
      nodes := nodes[at := node.(edges := node.edges[slot := Many(node.edges[slot].nodes + [n])])];
      forall k | 0 <= k < |parents|
        ensures nodes[k] == parents[k].(edges :=
                  parents[k].edges[slot := Many(ByFk(neighbors[..i + 1], column, parents[k].id))])
      {
        ByFkSnoc(neighbors, column, parents[k].id, i);
        assert k != at ==> nodes[k] == was[k];
      }
    }
    assert neighbors[..|neighbors|] == neighbors;
    r := Ok(nodes);
  }

  lemma ByFkSnoc(children: seq<Node>, column: Column, id: Id, i: nat)
    requires i < |children|
    ensures ByFk(children[..i + 1], column, id) ==
            if column in children[i].fks && children[i].fks[column] == id
            then ByFk(children[..i], column, id) + [children[i]]
            else ByFk(children[..i], column, id)
  {
    assert children[..i + 1][..i] == children[..i];
  }

  /** The second loop of a to-one loader: `index` lists the parents that hold a key. */
  method DistributeOne(column: Column, slot: nat, parents: seq<Node>, index: map<Id, seq<nat>>, neighbors: seq<Node>)
    returns (r: Result<seq<Node>, Error>)
    requires forall k :: 0 <= k < |parents| ==> slot < |parents[k].edges| && parents[k].edges[slot] == One(None)
    requires IndexesKeys(column, parents, index)
    ensures r.Ok? <==> forall c :: c in neighbors ==> c.id in index
    ensures r.Ok? ==> |r.value| == |parents| && forall k :: 0 <= k < |parents| ==>
              r.value[k] == parents[k].(edges :=
                parents[k].edges[slot := One(KeyHolder(column, parents[k], neighbors))])
  {
    var nodes := parents;
    for i := 0 to |neighbors|
      invariant |nodes| == |parents|
      invariant forall k :: 0 <= k < |parents| ==>
                  nodes[k] == parents[k].(edges :=
                    parents[k].edges[slot := One(KeyHolder(column, parents[k], neighbors[..i]))])
      invariant forall c :: c in neighbors[..i] ==> c.id in index
    {
      var n := neighbors[i];
      assert n in neighbors;
      assert neighbors[..i + 1][..i] == neighbors[..i];
      if n.id !in index { return Err(UnexpectedForeignKey(column, n.id)); }
      PositionsMembers(column, parents, n.id);
      ghost var was := nodes;
      assert forall k :: 0 <= k < |index[n.id]| ==> index[n.id][k] in index[n.id];
      hide LastById, Positions;
      nodes := AssignAll(slot, nodes, index[n.id], n);
      forall k | 0 <= k < |parents|
        ensures nodes[k] == parents[k].(edges :=
                  parents[k].edges[slot := One(KeyHolder(column, parents[k], neighbors[..i + 1]))])
      {
        NextKeyHolder(column, slot, parents[k], neighbors, i);
        assert nodes[k] == if k in index[n.id] then was[k].(edges := was[k].edges[slot := One(Some(n))]) else was[k];
      }
    }
    assert neighbors[..|neighbors|] == neighbors;
    r := Ok(nodes);
  }

  /** `index` maps each key to the positions of the parents that hold it. */
  ghost predicate IndexesKeys(column: Column, parents: seq<Node>, index: map<Id, seq<nat>>) {
    && (forall id :: id in index <==> id in Keys(parents, column))
    && (forall id :: id in index ==> index[id] == Positions(column, parents, id))
  }

  ghost function Positions(column: Column, parents: seq<Node>, id: Id): seq<nat> {
    if parents == [] then []
    else
      var n := |parents| - 1;
      Positions(column, parents[..n], id)
      + (if column in parents[n].fks && parents[n].fks[column] == id then [n] else [])
  }

  lemma {:induction false} PositionsMembers(column: Column, parents: seq<Node>, id: Id)
    ensures forall k: nat :: k in Positions(column, parents, id) <==>
              k < |parents| && column in parents[k].fks && parents[k].fks[column] == id
  {
    if parents != [] {
      var n := |parents| - 1;
      PositionsMembers(column, parents[..n], id);
    }
  }

  lemma IndexNil(column: Column)
    ensures Keys([], column) == []
  {
  }

  lemma IndexSnoc(column: Column, parents: seq<Node>, i: nat)
    requires i < |parents|
    ensures Keys(parents[..i + 1], column) ==
              Keys(parents[..i], column)
              + if column in parents[i].fks && parents[i].fks[column] !in Keys(parents[..i], column)
                then [parents[i].fks[column]] else []
    ensures forall id :: Positions(column, parents[..i + 1], id) ==
              Positions(column, parents[..i], id)
              + if column in parents[i].fks && parents[i].fks[column] == id then [i] else []
  {
    assert parents[..i + 1][..i] == parents[..i];
  }

  lemma {:induction false} NoPositions(column: Column, parents: seq<Node>, id: Id)
    requires id !in Keys(parents, column)
    ensures Positions(column, parents, id) == []
  {
    if parents != [] { NoPositions(column, parents[..|parents| - 1], id); }
  }

  ghost function KeyHolder(column: Column, parent: Node, children: seq<Node>): Option<Node> {
    if column in parent.fks then LastById(children, parent.fks[column]) else None
  }

  lemma NextKeyHolder(column: Column, slot: nat, parent: Node, children: seq<Node>, i: nat)
    requires i < |children| && slot < |parent.edges|
    ensures KeyHolder(column, parent, children[..i + 1]) ==
            if column in parent.fks && parent.fks[column] == children[i].id then Some(children[i])
            else KeyHolder(column, parent, children[..i])
    ensures forall v, w {:trigger parent.edges[slot := v][slot := w]} ::
              parent.edges[slot := v][slot := w] == parent.edges[slot := w]
  {
    assert children[..i + 1][..i] == children[..i];
  }

  method AssignAll(slot: nat, nodes: seq<Node>, at: seq<nat>, n: Node) returns (r: seq<Node>)
    requires forall i :: 0 <= i < |at| ==> at[i] < |nodes|
    requires forall k :: 0 <= k < |nodes| ==> slot < |nodes[k].edges|
    ensures |r| == |nodes|
    ensures forall k :: 0 <= k < |nodes| ==>
              r[k] == if k in at then nodes[k].(edges := nodes[k].edges[slot := One(Some(n))]) else nodes[k]
  {
    r := nodes;
    for i := 0 to |at|
      invariant |r| == |nodes|
      invariant forall k :: 0 <= k < |nodes| ==>
                  r[k] == if k in at[..i] then nodes[k].(edges := nodes[k].edges[slot := One(Some(n))]) else nodes[k]
    {
      r := r[at[i] := r[at[i]].(edges := r[at[i]].edges[slot := One(Some(n))])];
    }
    assert at[..|at|] == at;
  }

  // ----- Clones are independent -----

  /** A database with unique primary keys. */
  type Store = db: Database | db.Valid() witness Database(map[])

  /** Everything a holder of a builder can do with it.  The options of `With` are calls on the new nested
      builder, `uses` are calls on a further clone. */
  datatype Call =
    | CallWhere(ps: seq<Pred>)
    | CallLimit(limit: nat)
    | CallOffset(offset: nat)
    | CallOrder(terms: seq<Row -> int>)
    | CallSelect(columns: seq<Column>)
    | CallWith(edge: nat, options: seq<Call>)
    | CallClone(uses: seq<Call>)
    | CallFirst(db: Store)
    | CallOnly(db: Store)
    | CallExist(db: Store)
    | CallAll(db: Store)

  method Perform(b: QueryBuilder, call: Call)
    requires b.Valid() && b.sc.Valid()
    modifies b.Repr
    ensures b.Valid() && fresh(b.Repr - old(b.Repr)) && b.withFKs == old(b.withFKs)
    decreases call
  {
    hide WellFormed;
    b.ContentsWellFormed();
    match call
    case CallWhere(ps) => b.Where(ps);
    case CallLimit(n) => b.Limit(n);
    case CallOffset(n) => b.Offset(n);
    case CallOrder(terms) => b.Order(terms);
    case CallSelect(columns) => b.Select(columns);
    case CallWith(j, options) => WithOptions(b, call);
    case CallClone(uses) => UseClone(b, call);
    case CallFirst(db) => var _ := b.First(db);
    case CallOnly(db) => var _ := b.Only(db);
    case CallExist(db) => var _ := b.Exist(db);
    case CallAll(db) => var _ := b.All(db);
    b.ContentsWellFormed();
  }

  /** A new nested builder, the options applied to it, then attached; there are only the edges of the schema. */
  method WithOptions(b: QueryBuilder, call: Call)
    requires b.Valid() && b.sc.Valid() && call.CallWith?
    modifies b
    ensures b.Valid() && fresh(b.Repr - old(b.Repr)) && b.withFKs == old(b.withFKs)
    decreases call, 0
  {
    hide *;
    if call.edge < |b.sc.Of(b.table).edges| {
      var n := new QueryBuilder(b.sc, b.sc.Of(b.table).edges[call.edge].target);
      n.ContentsWellFormed();
      label Built:
      for i := 0 to |call.options|
        modifies n.Repr
        invariant n.Valid() && fresh(n.Repr) && fresh@Built(n.Repr - old@Built(n.Repr)) && !n.withFKs
      {
        Perform(n, call.options[i]);
      }
      b.ContentsWellFormed();
      b.With(call.edge, n);
      b.ContentsWellFormed();
    }
  }

  method UseClone(b: QueryBuilder, call: Call)
    requires b.Valid() && b.sc.Valid() && call.CallClone?
    decreases call, 0
  {
    hide *;
    var c := b.Clone();
    label Cloned:
    for i := 0 to |call.uses|
      modifies c.Repr
      invariant c.Valid() && fresh(c.Repr) && fresh@Cloned(c.Repr - old@Cloned(c.Repr))
    {
      Perform(c, call.uses[i]);
    }
  }

  /** Clone a builder, use the clone in any way on any databases, then run the original: it returns
      what it would have returned at once, and so did the clone before it was used.  (Only a loader
      sets `withFKs`, and only on the nested builder it runs.) */
  method CloneIsIndependent(b: QueryBuilder, calls: seq<Call>, db: Store)
    returns (fromClone: Result<seq<Node>, Error>, fromOriginal: Result<seq<Node>, Error>)
    requires b.Valid() && b.sc.Valid()
    modifies b.Repr
    ensures fromOriginal == Run(b.sc, db, old(b.Contents), [], false)
    ensures !old(b.withFKs) ==> fromClone == fromOriginal
  {
    hide *;
    b.ContentsWellFormed();
    if !b.withFKs { CloneReturnsSame(b.sc, db, b.Contents, [], false); }
    var c := b.Clone();
    fromClone := c.All(db);
    label Returned:
    for i := 0 to |calls|
      modifies c.Repr
      invariant c.Valid() && fresh(c.Repr) && fresh@Returned(c.Repr - old@Returned(c.Repr))
    {
      Perform(c, calls[i]);
    }
    fromOriginal := b.All(db);
  }

  /** `Exist` spoils the builder for a second `Exist`: the identifier is selected twice. */
  method ExistTwice(b: QueryBuilder, db: Database, db': Database)
    returns (first: Result<bool, Error>, second: Result<bool, Error>)
    requires b.Valid()
    modifies b
    ensures first.Ok? ==> second == Err(ColumnsDoNotMatch(2))
    ensures second.Err?
  {
    first := b.Exist(db);
    FieldsTwice(b.sc.Of(b.table), b.fields);
    second := b.Exist(db');
  }

  lemma {:induction false} FieldsTwice(e: Entity, fields: seq<Column>)
    ensures BadField(e, fields + ["id"]).None? <==>
              BadField(e, fields).None? && ("id" in e.columns || "id" in e.foreignKeys)
  {
    if fields == [] {
      assert fields + ["id"] == ["id"];
      assert BadField(e, ["id"][1..]).None?;
    } else {
      assert (fields + ["id"])[0] == fields[0] && (fields + ["id"])[1..] == fields[1..] + ["id"];
      FieldsTwice(e, fields[1..]);
    }
  }
}
