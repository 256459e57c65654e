/** A limit or offset of a nested query: it is applied once to the whole batch, so eager loading matches
    one query per parent exactly if there is none. */
module NestedLimits {
  import opened Wrappers
  import opened RowSet
  import opened Schemas
  import opened EagerLoad
  import opened EagerLoadProofs
  import opened EdgeLaws

  /** All entities of a table with edge `j` loaded by the nested query `n`. */
  ghost function WithEdge(sc: Schema, table: TableName, j: nat, n: Query): Query
    requires j < |sc.Of(table).edges|
  {
    Query(table, [], [], None, None, [], false, seq(|sc.Of(table).edges|, i => if i == j then Some(n) else None))
  }

  /** A nested query that only sets an order, a limit and an offset. */
  ghost function Windowed(sc: Schema, table: TableName, order: seq<Row -> int>,
                          limit: Option<nat>, offset: Option<nat>): Query
  {
    Query(table, [], order, limit, offset, [], false, seq(|sc.Of(table).edges|, _ => None))
  }

  ghost predicate EagerMatchesLazy(sc: Schema, db: Database, q: Query)
    requires WellFormed(sc, q)
  {
    Run(sc, db, q, [], false) == Ok(LazyNodes(sc, db, q, false, FetchRows(db, q, [])))
  }

  /** Loading an edge of either kind eagerly matches one query per parent on every database if and only if
      the nested query has neither a limit nor an offset. */
  lemma NestedLimitBreaksEagerLoading(sc: Schema, table: TableName, j: nat,
                                      order: seq<Row -> int>, limit: Option<nat>, offset: Option<nat>)
    requires sc.Valid() && j < |sc.Of(table).edges|
    ensures WellFormed(sc, WithEdge(sc, table, j, Windowed(sc, sc.Of(table).edges[j].target, order, limit, offset)))
    ensures var n := Windowed(sc, sc.Of(table).edges[j].target, order, limit, offset);
      (forall db: Database :: db.Valid() ==> EagerMatchesLazy(sc, db, WithEdge(sc, table, j, n)))
      <==> Given(limit) == 0 && Given(offset) == 0
  {
    var e := sc.Of(table).edges[j];
    var n := Windowed(sc, e.target, order, limit, offset);
    var q := WithEdge(sc, table, j, n);
    assert WellFormed(sc, n) && WellFormed(sc, q);
    hide WellFormed, Run, LazyNodes;
    if Given(limit) == 0 && Given(offset) == 0 {
      assert FieldsValid(sc, n) && NoWindowsBelow(n);
      assert FieldsValid(sc, q) && NoWindowsBelow(q);
      hide FieldsValid, NoWindowsBelow;
      forall db: Database | db.Valid() ensures EagerMatchesLazy(sc, db, q) {
        RunSucceeds(sc, db, q, [], false);
        EagerIsLazy(sc, db, q, [], false);
      }
    } else {
      QueryOfEdge(sc, table, j, n);
      hide EagerMatchesLazy, WithEdge;
      if e.kind.ToMany? { SharedByTwo(sc, q, j); } else { OneEach(sc, q, j); }
    }
  }

  lemma QueryOfEdge(sc: Schema, table: TableName, j: nat, n: Query)
    requires j < |sc.Of(table).edges|
    ensures PlainTop(WithEdge(sc, table, j, n))
    ensures var q := WithEdge(sc, table, j, n); q.table == table && j < |q.edges| && q.edges[j] == Some(n)
  {
  }

  /** No predicates, order or window at the top. */
  ghost predicate PlainTop(q: Query) {
    q.preds == [] && q.order == [] && Given(q.limit) == 0 && Given(q.offset) == 0
  }

  /** The nested query of edge `j` has a window and no predicates. */
  ghost predicate WindowAt(sc: Schema, q: Query, j: nat) {
    && sc.Valid() && WellFormed(sc, q) && PlainTop(q)
    && j < |q.edges| && q.edges[j].Some? && q.edges[j].value.preds == []
    && Given(q.edges[j].value.offset) + Given(q.edges[j].value.limit) != 0
  }

  // ----- Counting rows -----

  ghost function WindowLength(m: nat, offset: nat, limit: nat): nat {
    |Window(seq(m, _ => Row("", map[], map[])), offset, limit)|
  }

  /** How many rows a query with one predicate returns. */
  lemma FetchedCount(db: Database, n: Query, p: Pred)
    requires n.preds == []
    ensures |FetchRows(db, n, [p])| == WindowLength(|Filter(db.Rows(n.table), [p])|, Given(n.offset), Given(n.limit))
  {
    assert n.preds + [p] == [p];
    SortProperties(n.order, Filter(db.Rows(n.table), [p]));
  }

  lemma {:induction false} EverythingSelected(rows: seq<Row>)
    ensures Filter(rows, []) == rows && Sort([], rows) == rows
  {
    if rows != [] {
      var front := rows[..|rows| - 1];
      EverythingSelected(front);
      assert rows == front + [rows[|rows| - 1]];
    }
  }

  /** A query without predicates, order or window returns the table. */
  lemma PlainFetch(db: Database, q: Query)
    requires PlainTop(q)
    ensures FetchRows(db, q, []) == db.Rows(q.table)
  {
    hide Filter, Sort, Window;
    EverythingSelected(db.Rows(q.table));
    assert q.preds + [] == [];
  }

  lemma {:induction false} FilterConcat(a: seq<Row>, b: seq<Row>, ps: seq<Pred>)
    ensures Filter(a + b, ps) == Filter(a, ps) + Filter(b, ps)
  {
    if b == [] {
      assert a + b == a;
    } else {
      FilterConcat(a, b[..|b| - 1], ps);
      assert (a + b)[..|a + b| - 1] == a + b[..|b| - 1];
    }
  }

  /** `count` rows numbered from `first`, all with the same key. */
  ghost function Owned(column: Column, first: nat, count: nat, owner: Id): seq<Row> {
    seq(count, i requires i >= 0 => Row(Numeral(first + i), map[], map[column := owner]))
  }

  lemma {:induction false} FilterOwned(column: Column, first: nat, count: nat, owner: Id, ids: seq<Id>)
    ensures |Filter(Owned(column, first, count, owner), [FkIn(column, ids)])| == if owner in ids then count else 0
  {
    if count != 0 {
      FilterOwned(column, first, count - 1, owner, ids);
      var rows := Owned(column, first, count, owner);
      assert rows[..count - 1] == Owned(column, first, count - 1, owner);
      assert HoldsAll([FkIn(column, ids)], rows[count - 1]) == Holds([FkIn(column, ids)][0], rows[count - 1]);
    }
  }

  /** The same rows in both tables of the edge. */
  ghost function Both(table: TableName, e: Edge, rows: seq<Row>): Database {
    Database(map[table := rows, e.target := rows])
  }

  lemma BothRows(table: TableName, e: Edge, rows: seq<Row>)
    ensures Both(table, e, rows).Rows(table) == rows && Both(table, e, rows).Rows(e.target) == rows
    ensures DistinctIds(rows) ==> Both(table, e, rows).Valid()
  {
  }

  // ----- A to-many edge: two owners of `half` rows each -----

  ghost function TwoOwners(column: Column, half: nat): (rows: seq<Row>)
    ensures |rows| == 2 * half && forall i :: 0 <= i < |rows| ==> rows[i].id == Numeral(i)
  {
    Owned(column, 0, half, Numeral(0)) + Owned(column, half, half, Numeral(1))
  }

  lemma NumberedDistinct(rows: seq<Row>)
    requires forall i :: 0 <= i < |rows| ==> rows[i].id == Numeral(i)
    ensures DistinctIds(rows)
  {
    forall i, j | 0 <= i < j < |rows| ensures rows[i].id != rows[j].id {
      assert |rows[i].id| != |rows[j].id|;
    }
  }

  lemma OwnedByCount(column: Column, half: nat, ids: seq<Id>)
    ensures |Filter(TwoOwners(column, half), [FkIn(column, ids)])|
         == (if Numeral(0) in ids then half else 0) + (if Numeral(1) in ids then half else 0)
  {
    FilterConcat(Owned(column, 0, half, Numeral(0)), Owned(column, half, half, Numeral(1)), [FkIn(column, ids)]);
    FilterOwned(column, 0, half, Numeral(0), ids);
    FilterOwned(column, half, half, Numeral(1), ids);
    hide Filter, Owned, Numeral;
  }

  lemma WindowNotAdditive(offset: nat, limit: nat)
    requires offset + limit != 0
    ensures WindowLength(2 * (offset + limit), offset, limit) != 2 * WindowLength(offset + limit, offset, limit)
    ensures WindowLength(0, offset, limit) == 0
  {
  }

  /** The batch holds `WindowLength(2 * half)` children, the parents' own queries together twice
      `WindowLength(half)`; as every child goes to one parent, the two cannot be the same. */
  lemma SharedByTwo(sc: Schema, q: Query, j: nat)
    requires WindowAt(sc, q, j) && sc.Of(q.table).edges[j].kind.ToMany?
    ensures exists db: Database :: db.Valid() && !EagerMatchesLazy(sc, db, q)
  {
    var e, n := sc.Of(q.table).edges[j], q.edges[j].value;
    assert n.table == e.target;
    hide WellFormed, EagerMatchesLazy, Both, TwoOwners, Numeral, WindowLength;
    var half := Given(n.offset) + Given(n.limit);
    var rows := TwoOwners(e.column, half);
    var db := Both(q.table, e, rows);
    BothRows(q.table, e, rows);
    NumberedDistinct(rows);
    WindowNotAdditive(Given(n.offset), Given(n.limit));
    if EagerMatchesLazy(sc, db, q) { CountsAgree(sc, db, q, j, half); }
  }

  lemma CountsAgree(sc: Schema, db: Database, q: Query, j: nat, half: nat)
    requires WindowAt(sc, q, j) && sc.Of(q.table).edges[j].kind.ToMany? && EagerMatchesLazy(sc, db, q) && half >= 1
    requires db.Rows(q.table) == TwoOwners(sc.Of(q.table).edges[j].column, half) == db.Rows(q.edges[j].value.table)
    requires db.Valid()
    ensures var o, l := Given(q.edges[j].value.offset), Given(q.edges[j].value.limit);
      WindowLength(2 * half, o, l) == 2 * WindowLength(half, o, l)
  {
    var n, got := q.edges[j].value, Run(sc, db, q, [], false).value;
    PlainFetch(db, q);
    hide FetchRows, Filter, TwoOwners, Numeral, WindowLength, LazyEdge;
    EveryChildOnce(sc, db, q, j);
    BatchCount(sc, db, q, j, half);
    OwnLists(sc, db, q, j, half);
    hide *;
    ListsTogether(got, j, half, WindowLength(half, Given(n.offset), Given(n.limit)));
    SameLength(AllChildren(got, j), Batch(sc, db, q, j));
  }

  lemma SameLength(a: seq<Node>, b: seq<Node>)
    requires multiset(a) == multiset(b)
    ensures |a| == |b|
  {
    assert |multiset(a)| == |a| && |multiset(b)| == |b|;
  }

  lemma BatchCount(sc: Schema, db: Database, q: Query, j: nat, half: nat)
    requires WindowAt(sc, q, j) && sc.Of(q.table).edges[j].kind.ToMany? && half >= 1
    requires db.Rows(q.table) == TwoOwners(sc.Of(q.table).edges[j].column, half) == db.Rows(q.edges[j].value.table)
    requires Run(sc, db, q, [], false).Ok?
    ensures var n := q.edges[j].value;
      |Batch(sc, db, q, j)| == WindowLength(2 * half, Given(n.offset), Given(n.limit))
  {
    var e, n, base := sc.Of(q.table).edges[j], q.edges[j].value, Base(sc, db, q, [], false);
    PlainFetch(db, q);
    assert base[0].id == Numeral(0) && base[1].id == Numeral(1);
    assert Ids(base)[0] == Numeral(0) && Ids(base)[1] == Numeral(1);
    LoadParts(sc, db, q, base, |q.edges|);
    hide FetchRows, Base, Numeral, WellFormed, TwoOwners, Filter, WindowLength;
    FetchedCount(db, n, FkIn(e.column, Ids(base)));
    OwnedByCount(e.column, half, Ids(base));
  }

  /** The first two parents have a list of the length of their own query, the others an empty one. */
  lemma OwnLists(sc: Schema, db: Database, q: Query, j: nat, half: nat)
    requires WindowAt(sc, q, j) && sc.Of(q.table).edges[j].kind.ToMany? && EagerMatchesLazy(sc, db, q)
    requires db.Rows(q.table) == TwoOwners(sc.Of(q.table).edges[j].column, half) == db.Rows(q.edges[j].value.table)
    ensures var n, got := q.edges[j].value, Run(sc, db, q, [], false).value;
      && |got| == 2 * half
      && forall k :: 0 <= k < |got| ==>
           && j < |got[k].edges| && got[k].edges[j].Many?
           && |got[k].edges[j].nodes| == if k < 2 then WindowLength(half, Given(n.offset), Given(n.limit)) else 0
  {
    PlainFetch(db, q);
    var n, got := q.edges[j].value, Run(sc, db, q, [], false).value;
    hide WindowAt, WellFormed, FetchRows, LazyNodes, Numeral, WindowLength, TwoOwners;
    forall k | 0 <= k < |got|
      ensures j < |got[k].edges| && got[k].edges[j].Many?
      ensures |got[k].edges[j].nodes| == if k < 2 then WindowLength(half, Given(n.offset), Given(n.limit)) else 0
    {
      MatchedEdge(sc, db, q, j, k);
      OwnList(sc, db, q, j, half, k);
    }
  }

  lemma OwnList(sc: Schema, db: Database, q: Query, j: nat, half: nat, k: nat)
    requires WindowAt(sc, q, j) && sc.Of(q.table).edges[j].kind.ToMany? && k < |FetchRows(db, q, [])|
    requires FetchRows(db, q, []) == TwoOwners(sc.Of(q.table).edges[j].column, half) == db.Rows(q.edges[j].value.table)
    ensures var n, v := q.edges[j].value, LazyEdge(sc, db, q, FetchRows(db, q, [])[k], j);
      v.Many? && |v.nodes| == if k < 2 then WindowLength(half, Given(n.offset), Given(n.limit)) else 0
  {
    var e, n, r := sc.Of(q.table).edges[j], q.edges[j].value, FetchRows(db, q, [])[k];
    var own := FkIn(e.column, [Numeral(k)]);
    hide FetchRows, Numeral, WellFormed, TwoOwners, Filter, WindowLength, LazyEdge;
    assert r.id == Numeral(k);
    ListOfParent(sc, db, q, r, j);
    WindowNotAdditive(Given(n.offset), Given(n.limit));
    FetchedCount(db, n, own);
    OwnCount(e.column, half, k);
  }

  lemma ListOfParent(sc: Schema, db: Database, q: Query, r: Row, j: nat)
    requires WellFormed(sc, q) && j < |q.edges| && q.edges[j].Some? && sc.Of(q.table).edges[j].kind.ToMany?
    ensures var v := LazyEdge(sc, db, q, r, j);
      v.Many? && |v.nodes| == |FetchRows(db, q.edges[j].value, [FkIn(sc.Of(q.table).edges[j].column, [r.id])])|
  {
    hide FetchRows;
  }

  lemma OwnCount(column: Column, half: nat, k: nat)
    ensures |Filter(TwoOwners(column, half), [FkIn(column, [Numeral(k)])])| == if k < 2 then half else 0
  {
    hide Numeral, Filter, TwoOwners;
    SameNumeral(0, k);
    SameNumeral(1, k);
    assert Numeral(0) in [Numeral(k)] <==> k == 0;
    assert Numeral(1) in [Numeral(k)] <==> k == 1;
    OwnedByCount(column, half, [Numeral(k)]);
  }

  lemma SameNumeral(i: nat, k: nat)
    ensures Numeral(i) == Numeral(k) <==> i == k
  {
    assert |Numeral(i)| == i && |Numeral(k)| == k;
  }

  /** Where eager loading matches, a parent's edge is what its own query returns. */
  lemma MatchedEdge(sc: Schema, db: Database, q: Query, j: nat, k: nat)
    requires WellFormed(sc, q) && EagerMatchesLazy(sc, db, q) && j < |q.edges| && k < |FetchRows(db, q, [])|
    ensures var got := Run(sc, db, q, [], false).value;
      && k < |got| && j < |got[k].edges| && got[k].edges[j] == LazyEdge(sc, db, q, FetchRows(db, q, [])[k], j)
  {
    LazyEdgeOfNode(sc, db, q, FetchRows(db, q, [])[k], j);
  }

  lemma ListsTogether(nodes: seq<Node>, j: nat, half: nat, length: nat)
    requires |nodes| == 2 * half && half >= 1
    requires forall k :: 0 <= k < |nodes| ==>
               && j < |nodes[k].edges| && nodes[k].edges[j].Many?
               && |nodes[k].edges[j].nodes| == if k < 2 then length else 0
    ensures |AllChildren(nodes, j)| == 2 * length
  {
    ListsUpTo(nodes, j, length, |nodes|);
    assert nodes[..|nodes|] == nodes;
  }

  lemma {:induction false} ListsUpTo(nodes: seq<Node>, j: nat, length: nat, m: nat)
    requires m <= |nodes|
    requires forall k :: 0 <= k < |nodes| ==>
               && j < |nodes[k].edges| && nodes[k].edges[j].Many?
               && |nodes[k].edges[j].nodes| == if k < 2 then length else 0
    ensures |AllChildren(nodes[..m], j)| == if m == 0 then 0 else if m == 1 then length else 2 * length
  {
    if m != 0 {
      ListsUpTo(nodes, j, length, m - 1);
      assert nodes[..m][..m - 1] == nodes[..m - 1];
    }
  }

  // ----- A to-one edge: rows that refer to themselves -----

  ghost function OwnKeys(column: Column, count: nat): (rows: seq<Row>)
    ensures |rows| == count
    ensures forall i :: 0 <= i < |rows| ==> rows[i] == Row(Numeral(i), map[], map[column := Numeral(i)])
  {
    seq(count, i requires i >= 0 => Row(Numeral(i), map[], map[column := Numeral(i)]))
  }

  lemma {:induction false} FilterByIds(column: Column, count: nat, m: nat, ids: seq<Id>)
    requires m <= count
    ensures (forall i :: 0 <= i < m ==> Numeral(i) in ids) ==> |Filter(OwnKeys(column, count)[..m], [IdIn(ids)])| == m
    ensures forall k: nat :: ids == [Numeral(k)] ==>
              |Filter(OwnKeys(column, count)[..m], [IdIn(ids)])| == if k < m then 1 else 0
  {
    if m != 0 {
      FilterByIds(column, count, m - 1, ids);
      var rows := OwnKeys(column, count)[..m];
      assert rows[..m - 1] == OwnKeys(column, count)[..m - 1];
      assert HoldsAll([IdIn(ids)], rows[m - 1]) == Holds([IdIn(ids)][0], rows[m - 1]);
      forall k: nat | ids == [Numeral(k)] ensures Numeral(m - 1) in ids <==> k == m - 1 {
        assert |Numeral(k)| == k && |Numeral(m - 1)| == m - 1;
      }
    }
  }

  /** More distinct keys than nodes: some key has no node. */
  lemma {:induction false} TooManyKeys(keys: seq<Id>, ids: seq<Id>)
    requires DistinctKeys(keys) && forall k :: k in keys ==> k in ids
    ensures |keys| <= |ids|
  {
    if keys != [] {
      var front, last := keys[..|keys| - 1], keys[|keys| - 1];
      assert last in keys;
      var i :| 0 <= i < |ids| && ids[i] == last;
      var rest := ids[..i] + ids[i + 1..];
      forall k | k in front ensures k in rest {
        var y :| 0 <= y < |front| && front[y] == k;
        assert keys[y] in keys && keys[y] != last;
        var x :| 0 <= x < |ids| && ids[x] == k;
        assert x != i && rest[if x < i then x else x - 1] == k;
      }
      TooManyKeys(front, rest);
    }
  }

  /** With an offset the parents' own queries find nothing, the batch does; with a limit alone they all
      find their row, the batch has one too few. */
  lemma OneEach(sc: Schema, q: Query, j: nat)
    requires WindowAt(sc, q, j) && sc.Of(q.table).edges[j].kind.ToOne?
    ensures exists db: Database :: db.Valid() && !EagerMatchesLazy(sc, db, q)
  {
    var e, n := sc.Of(q.table).edges[j], q.edges[j].value;
    var o, l := Given(n.offset), Given(n.limit);
    var count := o + l + 1;
    var rows := OwnKeys(e.column, count);
    var db := Both(q.table, e, rows);
    BothRows(q.table, e, rows);
    NumberedDistinct(rows);
    assert n.table == e.target;
    if EagerMatchesLazy(sc, db, q) {
      var batch := OneBatch(sc, db, q, j, count);
      hide *;
      OneTooFew(batch, o, l);
    }
  }

  lemma WindowOfOne(o: nat, l: nat)
    requires o + l != 0
    ensures WindowLength(1, o, l) == if o == 0 then 1 else 0
    ensures o == 0 ==> WindowLength(o + l + 1, o, l) == l
    ensures o > 0 ==> WindowLength(o + l + 1, o, l) > 0
  {
  }

  /** What the batch would have to be. */
  ghost predicate Serves(batch: seq<Node>, o: nat, l: nat) {
    && |batch| == WindowLength(o + l + 1, o, l)
    && (forall c :: c in batch ==> exists k: nat :: k <= o + l && c.id == Numeral(k))
    && forall k: nat :: k <= o + l ==> (LastById(batch, Numeral(k)).Some? <==> WindowLength(1, o, l) > 0)
  }

  lemma OneTooFew(batch: seq<Node>, o: nat, l: nat)
    requires o + l != 0
    ensures !Serves(batch, o, l)
  {
    WindowOfOne(o, l);
    hide WindowLength;
    if o > 0 && |batch| > 0 && (forall c :: c in batch ==> exists k: nat :: k <= o + l && c.id == Numeral(k)) {
      assert batch[0] in batch;
      var k: nat :| k <= o + l && batch[0].id == Numeral(k);
      LastByIdFinds(batch, Numeral(k));
    }
    if o == 0 && |batch| == l { SomeKeyMissing(batch); }
  }

  lemma SomeKeyMissing(batch: seq<Node>)
    ensures exists k: nat :: k <= |batch| && LastById(batch, Numeral(k)).None?
  {
    var keys := seq(|batch| + 1, i requires i >= 0 => Numeral(i));
    forall i, k | 0 <= i < k < |keys| ensures keys[i] != keys[k] { assert |keys[i]| == i && |keys[k]| == k; }
    if forall k: nat :: k <= |batch| ==> LastById(batch, Numeral(k)).Some? {
      forall x | x in keys ensures x in Ids(batch) {
        var k :| 0 <= k < |keys| && keys[k] == x;
        LastByIdFinds(batch, x);
        var i :| 0 <= i < |batch| && batch[i].id == x;
        assert Ids(batch)[i] == x;
      }
      TooManyKeys(keys, Ids(batch));
    }
  }

  lemma OneBatch(sc: Schema, db: Database, q: Query, j: nat, count: nat) returns (batch: seq<Node>)
    requires WindowAt(sc, q, j) && sc.Of(q.table).edges[j].kind.ToOne? && EagerMatchesLazy(sc, db, q)
    requires db.Rows(q.table) == OwnKeys(sc.Of(q.table).edges[j].column, count) == db.Rows(q.edges[j].value.table)
    requires count == Given(q.edges[j].value.offset) + Given(q.edges[j].value.limit) + 1
    ensures Serves(batch, Given(q.edges[j].value.offset), Given(q.edges[j].value.limit))
  {
    var e, n, base := sc.Of(q.table).edges[j], q.edges[j].value, Base(sc, db, q, [], false);
    var o, l := Given(n.offset), Given(n.limit);
    PlainFetch(db, q);
    OwnKeysRead(sc, db, q, j, count);
    LoadParts(sc, db, q, base, |q.edges|);
    batch := LoadEdge(sc, db, q, base, j).value;
    var p := IdIn(Keys(base, e.column));
    assert batch == Run(sc, db, n, [p], false).value;
    ChildrenAreRequested(sc, db, n, Keys(base, e.column));
    FetchedCount(db, n, p);
    FilterByIds(e.column, count, count, Keys(base, e.column));
    assert OwnKeys(e.column, count)[..count] == OwnKeys(e.column, count);
    forall k: nat | k < count ensures LastById(batch, Numeral(k)).Some? <==> WindowLength(1, o, l) > 0 {
      OneOwn(sc, db, q, j, k, count);
    }
  }

  lemma OwnKeysRead(sc: Schema, db: Database, q: Query, j: nat, count: nat)
    requires WindowAt(sc, q, j) && sc.Of(q.table).edges[j].kind.ToOne?
    requires FetchRows(db, q, []) == OwnKeys(sc.Of(q.table).edges[j].column, count) && count >= 1
    ensures var e, base := sc.Of(q.table).edges[j], Base(sc, db, q, [], false);
      && |base| == count
      && (forall k :: 0 <= k < count ==> e.column in base[k].fks && base[k].fks[e.column] == Numeral(k))
      && (forall k: nat :: k < count ==> Numeral(k) in Keys(base, e.column)) && Keys(base, e.column) != []
      && (forall id :: id in Keys(base, e.column) ==> exists k: nat :: k < count && id == Numeral(k))
  {
    var e, base := sc.Of(q.table).edges[j], Base(sc, db, q, [], false);
    sc.EdgeColumn(q.table, j);
    assert e.column in Columns(sc.Of(q.table), q, false);
    hide FetchRows, Keys, Columns, WellFormed;
    forall k | 0 <= k < count ensures e.column in base[k].fks && base[k].fks[e.column] == Numeral(k) {
      assert FetchRows(db, q, [])[k] == Row(Numeral(k), map[], map[e.column := Numeral(k)]);
    }
    KeysMembers(base, e.column);
    assert base[0].fks[e.column] in Keys(base, e.column);
  }

  lemma OneOwn(sc: Schema, db: Database, q: Query, j: nat, k: nat, count: nat)
    requires WindowAt(sc, q, j) && sc.Of(q.table).edges[j].kind.ToOne? && EagerMatchesLazy(sc, db, q) && k < count
    requires db.Rows(q.table) == OwnKeys(sc.Of(q.table).edges[j].column, count) == db.Rows(q.edges[j].value.table)
    requires LoadEdge(sc, db, q, Base(sc, db, q, [], false), j).Ok?
    ensures var n := q.edges[j].value;
      LastById(LoadEdge(sc, db, q, Base(sc, db, q, [], false), j).value, Numeral(k)).Some?
      <==> WindowLength(1, Given(n.offset), Given(n.limit)) > 0
  {
    var e, n, base := sc.Of(q.table).edges[j], q.edges[j].value, Base(sc, db, q, [], false);
    PlainFetch(db, q);
    OwnKeysRead(sc, db, q, j, count);
    MatchedEdge(sc, db, q, j, k);
    DealtOne(sc, db, q, j, k);
    var r := FetchRows(db, q, [])[k];
    assert r == Row(Numeral(k), map[], map[e.column := Numeral(k)]);
    var own := IdIn([Numeral(k)]);
    assert LazyEdge(sc, db, q, r, j).One? && (LazyEdge(sc, db, q, r, j).node.Some? <==> FetchRows(db, n, [own]) != []);
    hide Run, LazyEdge, FetchRows, LoadEdge, Base, Keys, WellFormed;
    FetchedCount(db, n, own);
    FilterByIds(e.column, count, count, [Numeral(k)]);
    assert OwnKeys(e.column, count)[..count] == OwnKeys(e.column, count);
  }

  lemma DealtOne(sc: Schema, db: Database, q: Query, j: nat, k: nat)
    requires WellFormed(sc, q) && j < |q.edges| && q.edges[j].Some? && sc.Of(q.table).edges[j].kind.ToOne?
    requires Run(sc, db, q, [], false).Ok? && k < |Run(sc, db, q, [], false).value|
    ensures var got, base, e := Run(sc, db, q, [], false).value, Base(sc, db, q, [], false), sc.Of(q.table).edges[j];
      && |base| == |got| && j < |got[k].edges| && LoadEdge(sc, db, q, base, j).Ok?
      && (e.column in base[k].fks ==>
            got[k].edges[j] == One(LastById(LoadEdge(sc, db, q, base, j).value, base[k].fks[e.column])))
  {
    LoadParts(sc, db, q, Base(sc, db, q, [], false), |q.edges|);
    hide LoadEdge, FetchRows, LastById;
  }
}
