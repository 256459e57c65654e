/** Row-set semantics of a database table: what a `SELECT` with predicates, an order, an
    offset and a limit returns.  The query builders only ever reach the database through it. */
module RowSet {

  type Id = string
  type Column = string
  type TableName = string

  datatype Value = Text(text: string) | Number(number: int) | Instant(at: int) | Flag(on: bool) | Amount(amount: real)

  /** Texts that tell numbers apart. */
  function Numeral(n: nat): (text: string)
    ensures |text| == n
  {
    seq(n, _ => 'i')
  }

  /** A stored row.  A foreign key that is NULL is absent from `fks`. */
  datatype Row = Row(id: Id, cells: map<Column, Value>, fks: map<Column, Id>)

  /** The predicates a builder collects.  The first two are the ones the edge loaders append. */
  datatype Pred =
    | IdIn(ids: seq<Id>)
    | FkIn(column: Column, keys: seq<Id>)
    | Where(holds: Row -> bool)

  datatype Database = Database(tables: map<TableName, seq<Row>>) {
    function Rows(table: TableName): seq<Row> {
      if table in tables then tables[table] else []
    }

    /** Primary keys are unique in every table. */
    ghost predicate Valid() {
      forall t :: t in tables ==> DistinctIds(tables[t])
    }
  }

  ghost predicate DistinctIds(rows: seq<Row>) {
    forall i, j :: 0 <= i < j < |rows| ==> rows[i].id != rows[j].id
  }

  predicate Holds(p: Pred, r: Row) {
    match p
    case IdIn(ids) => r.id in ids
    case FkIn(column, keys) => column in r.fks && r.fks[column] in keys
    case Where(holds) => holds(r)
  }

  predicate HoldsAll(ps: seq<Pred>, r: Row) {
    forall i :: 0 <= i < |ps| ==> Holds(ps[i], r)
  }

  /** The rows satisfying every predicate, in table order. */
  function Filter(rows: seq<Row>, ps: seq<Pred>): seq<Row> {
    if rows == [] then []
    else
      var last := rows[|rows| - 1];
      Filter(rows[..|rows| - 1], ps) + (if HoldsAll(ps, last) then [last] else [])
  }

  // ----- ORDER BY: a stable sort on a list of keys -----

  /** Lexicographic order on the order terms. */
  predicate Leq(order: seq<Row -> int>, a: Row, b: Row) {
    if order == [] then true
    else if order[0](a) == order[0](b) then Leq(order[1..], a, b)
    else order[0](a) < order[0](b)
  }

  function Insert(order: seq<Row -> int>, sorted: seq<Row>, r: Row): seq<Row> {
    if sorted == [] then [r]
    else
      var n := |sorted| - 1;
      if Leq(order, sorted[n], r) then sorted + [r]
      else Insert(order, sorted[..n], r) + [sorted[n]]
  }

  function Sort(order: seq<Row -> int>, rows: seq<Row>): seq<Row> {
    if rows == [] then []
    else Insert(order, Sort(order, rows[..|rows| - 1]), rows[|rows| - 1])
  }

  ghost predicate Sorted(order: seq<Row -> int>, rows: seq<Row>) {
    forall i, j :: 0 <= i < j < |rows| ==> Leq(order, rows[i], rows[j])
  }

  // ----- OFFSET and LIMIT -----

  const MAX_INT32 := 2147483647

  /** Zero means "not set", as in the query specification the builders fill in; an offset
      without a limit is sent with the largest 32-bit limit. */
  function Window(rows: seq<Row>, offset: nat, limit: nat): (w: seq<Row>)
    ensures offset == 0 && limit == 0 ==> w == rows
  {
    var rest := if offset <= |rows| then rows[offset..] else [];
    var cap := if limit != 0 then limit else if offset != 0 then MAX_INT32 else |rest|;
    if cap <= |rest| then rest[..cap] else rest
  }

  function Select(rows: seq<Row>, ps: seq<Pred>, order: seq<Row -> int>, offset: nat, limit: nat): seq<Row> {
    Window(Sort(order, Filter(rows, ps)), offset, limit)
  }

  // ----- Filtering -----

  lemma {:induction false} FilterMembers(rows: seq<Row>, ps: seq<Pred>)
    ensures forall r :: r in Filter(rows, ps) <==> r in rows && HoldsAll(ps, r)
    ensures |Filter(rows, ps)| <= |rows|
  {
    if rows != [] {
      var front, last := rows[..|rows| - 1], rows[|rows| - 1];
      FilterMembers(front, ps);
      assert rows == front + [last];
    }
  }

  /** Only the truth of the predicates on the rows present matters. */
  lemma {:induction false} FilterAgree(rows: seq<Row>, ps: seq<Pred>, qs: seq<Pred>)
    requires forall r :: r in rows ==> HoldsAll(ps, r) == HoldsAll(qs, r)
    ensures Filter(rows, ps) == Filter(rows, qs)
  {
    if rows != [] {
      assert rows[|rows| - 1] in rows;
      FilterAgree(rows[..|rows| - 1], ps, qs);
    }
  }

  lemma HoldsAllConcat(ps: seq<Pred>, qs: seq<Pred>, r: Row)
    ensures HoldsAll(ps + qs, r) <==> HoldsAll(ps, r) && HoldsAll(qs, r)
  {
    if HoldsAll(ps + qs, r) {
      forall i | 0 <= i < |ps| ensures Holds(ps[i], r) { assert (ps + qs)[i] == ps[i]; }
      forall i | 0 <= i < |qs| ensures Holds(qs[i], r) { assert (ps + qs)[|ps| + i] == qs[i]; }
    }
  }

  lemma {:induction false} FilterFilter(rows: seq<Row>, ps: seq<Pred>, qs: seq<Pred>)
    ensures Filter(Filter(rows, ps), qs) == Filter(rows, ps + qs)
  {
    if rows != [] {
      var front, last := rows[..|rows| - 1], rows[|rows| - 1];
      FilterFilter(front, ps, qs);
      HoldsAllConcat(ps, qs, last);
      var f := Filter(front, ps);
      if HoldsAll(ps, last) {
        assert (f + [last])[..|f|] == f;
      } else {
        assert f + [] == f;
      }
    }
  }

  // ----- Sorting -----

  lemma {:induction false} LeqTotal(order: seq<Row -> int>, a: Row, b: Row)
    ensures Leq(order, a, b) || Leq(order, b, a)
  {
    if order != [] { LeqTotal(order[1..], a, b); }
  }

  lemma {:induction false} LeqTransitive(order: seq<Row -> int>, a: Row, b: Row, c: Row)
    requires Leq(order, a, b) && Leq(order, b, c)
    ensures Leq(order, a, c)
  {
    if order != [] && order[0](a) == order[0](b) == order[0](c) {
      LeqTransitive(order[1..], a, b, c);
    }
  }

  lemma {:induction false} InsertMembers(order: seq<Row -> int>, s: seq<Row>, r: Row)
    ensures |Insert(order, s, r)| == |s| + 1
    ensures forall x :: x in Insert(order, s, r) <==> x in s || x == r
  {
    if s != [] {
      var n := |s| - 1;
      assert s == s[..n] + [s[n]];
      InsertMembers(order, s[..n], r);
    }
  }

  lemma {:induction false} InsertSorted(order: seq<Row -> int>, s: seq<Row>, r: Row)
    requires Sorted(order, s)
    ensures Sorted(order, Insert(order, s, r))
  {
    if s != [] {
      var n := |s| - 1;
      if Leq(order, s[n], r) {
        forall i | 0 <= i < n ensures Leq(order, s[i], r) { LeqTransitive(order, s[i], s[n], r); }
      } else {
        InsertSorted(order, s[..n], r);
        InsertMembers(order, s[..n], r);
        LeqTotal(order, s[n], r);
        var t := Insert(order, s[..n], r);
        forall i | 0 <= i < |t| ensures Leq(order, t[i], s[n]) {
          assert t[i] in t;
          if t[i] != r { assert t[i] in s[..n]; }
        }
      }
    }
  }

  lemma {:induction false} SortProperties(order: seq<Row -> int>, rows: seq<Row>)
    ensures Sorted(order, Sort(order, rows))
    ensures |Sort(order, rows)| == |rows|
    ensures forall r :: r in Sort(order, rows) <==> r in rows
  {
    if rows != [] {
      var front, last := rows[..|rows| - 1], rows[|rows| - 1];
      assert rows == front + [last];
      SortProperties(order, front);
      InsertSorted(order, Sort(order, front), last);
      InsertMembers(order, Sort(order, front), last);
    }
  }

  lemma {:induction false} FilterInsert(order: seq<Row -> int>, s: seq<Row>, r: Row, ps: seq<Pred>)
    requires Sorted(order, s)
    ensures Filter(Insert(order, s, r), ps) ==
            if HoldsAll(ps, r) then Insert(order, Filter(s, ps), r) else Filter(s, ps)
  {
    assert Filter([], ps) == [] && [] + [r] == [r];
    hide HoldsAll, Filter, Insert, Leq;
    var n := |s| - 1;
    if s == [] || Leq(order, s[n], r) {
      FilterSnoc(s, r, ps);
      InsertLast(order, s, r);
      if s != [] { FilterStaysBelow(order, s, r, ps); }
    } else {
      var front, g := s[..n], Filter(s[..n], ps);
      assert front + [s[n]] == s;
      FilterInsert(order, front, r, ps);
      InsertBefore(order, front, s[n], r);
      FilterSnoc(Insert(order, front, r), s[n], ps);
      FilterSnoc(front, s[n], ps);
      if HoldsAll(ps, s[n]) { InsertBefore(order, g, s[n], r); }
    }
  }

  /** A row that is not below the last one is inserted after it. */
  lemma InsertLast(order: seq<Row -> int>, s: seq<Row>, r: Row)
    requires s == [] || Leq(order, s[|s| - 1], r)
    ensures Insert(order, s, r) == s + [r]
  {
  }

  /** A row below the last one is inserted before it. */
  lemma InsertBefore(order: seq<Row -> int>, s: seq<Row>, last: Row, r: Row)
    requires !Leq(order, last, r)
    ensures Insert(order, s + [last], r) == Insert(order, s, r) + [last]
  {
    assert (s + [last])[..|s|] == s;
  }

  lemma FilterSnoc(s: seq<Row>, r: Row, ps: seq<Pred>)
    ensures Filter(s + [r], ps) == if HoldsAll(ps, r) then Filter(s, ps) + [r] else Filter(s, ps)
  {
    assert (s + [r])[..|s|] == s;
  }

  lemma FilterStaysBelow(order: seq<Row -> int>, s: seq<Row>, r: Row, ps: seq<Pred>)
    requires Sorted(order, s) && s != [] && Leq(order, s[|s| - 1], r)
    ensures Insert(order, Filter(s, ps), r) == Filter(s, ps) + [r]
  {
    FilterMembers(s, ps);
    hide Filter, HoldsAll;
    var f := Filter(s, ps);
    if f != [] {
      var last := f[|f| - 1];
      assert last in f;
      var k :| 0 <= k < |s| && s[k] == last;
      if k < |s| - 1 { LeqTransitive(order, s[k], s[|s| - 1], r); }
    }
  }

  /** A stable sort and a filter commute. */
  lemma {:induction false} FilterSort(order: seq<Row -> int>, rows: seq<Row>, ps: seq<Pred>)
    ensures Filter(Sort(order, rows), ps) == Sort(order, Filter(rows, ps))
  {
    if rows != [] {
      var front, last := rows[..|rows| - 1], rows[|rows| - 1];
      FilterSort(order, front, ps);
      SortProperties(order, front);
      FilterInsert(order, Sort(order, front), last, ps);
      var f := Filter(front, ps);
      if HoldsAll(ps, last) {
        assert (f + [last])[..|f|] == f;
      } else {
        assert f + [] == f;
      }
    }
  }

  // ----- What a query means, clause by clause -----

  /** WHERE: the rows of a query satisfy each predicate in its own terms, and without a window all such
      rows are returned. */
  lemma WhereMeans(rows: seq<Row>, ps: seq<Pred>, order: seq<Row -> int>, offset: nat, limit: nat, r: Row)
    ensures r in Select(rows, ps, order, offset, limit) ==> r in rows && forall i :: 0 <= i < |ps| ==> Meets(ps[i], r)
    ensures r in rows && (forall i :: 0 <= i < |ps| ==> Meets(ps[i], r)) ==> r in Select(rows, ps, order, 0, 0)
  {
    SelectMembers(rows, ps, order, offset, limit);
    FilterMembers(rows, ps);
    SortProperties(order, Filter(rows, ps));
  }

  ghost predicate Meets(p: Pred, r: Row) {
    && (p.IdIn? ==> exists i :: 0 <= i < |p.ids| && p.ids[i] == r.id)
    && (p.FkIn? ==> exists i :: 0 <= i < |p.keys| && p.column in r.fks && r.fks[p.column] == p.keys[i])
    && (p.Where? ==> p.holds(r))
  }

  ghost predicate EqualTerms(order: seq<Row -> int>, a: Row, b: Row) {
    forall i :: 0 <= i < |order| ==> order[i](a) == order[i](b)
  }

  /** The first order term on which the rows differ is smaller for `a`. */
  ghost predicate Before(order: seq<Row -> int>, a: Row, b: Row) {
    exists k :: 0 <= k < |order| && order[k](a) < order[k](b) && EqualTerms(order[..k], a, b)
  }

  lemma {:induction false} LeqMeans(order: seq<Row -> int>, a: Row, b: Row)
    ensures Leq(order, a, b) <==> Before(order, a, b) || EqualTerms(order, a, b)
  {
    if order != [] {
      var rest := order[1..];
      LeqMeans(rest, a, b);
      assert forall i :: 0 <= i < |rest| ==> rest[i] == order[i + 1];
      assert forall i :: 1 <= i < |order| ==> order[i] == rest[i - 1];
      assert forall k :: 0 < k < |order| ==> order[..k][0] == order[0];
      if order[0](a) == order[0](b) {
        BeforeTail(order, a, b);
      } else if order[0](a) < order[0](b) {
        assert EqualTerms(order[..0], a, b);
      }
    }
  }

  lemma BeforeTail(order: seq<Row -> int>, a: Row, b: Row)
    requires order != [] && order[0](a) == order[0](b)
    ensures Before(order, a, b) <==> Before(order[1..], a, b)
  {
    var rest := order[1..];
    if Before(order, a, b) {
      var k :| 0 <= k < |order| && order[k](a) < order[k](b) && EqualTerms(order[..k], a, b);
      var pre := rest[..k - 1];
      forall i | 0 <= i < |pre| ensures pre[i](a) == pre[i](b) { assert pre[i] == order[..k][i + 1]; }
      assert rest[k - 1](a) < rest[k - 1](b) && EqualTerms(pre, a, b);
    }
    if Before(rest, a, b) {
      var k :| 0 <= k < |rest| && rest[k](a) < rest[k](b) && EqualTerms(rest[..k], a, b);
      var pre := order[..k + 1];
      forall i | 0 <= i < |pre| ensures pre[i](a) == pre[i](b) {
        if i > 0 { assert pre[i] == rest[..k][i - 1]; }
      }
      assert order[k + 1](a) < order[k + 1](b) && EqualTerms(pre, a, b);
    }
  }

  /** ORDER BY: a later row is never before an earlier one. */
  lemma OrderMeans(rows: seq<Row>, ps: seq<Pred>, order: seq<Row -> int>, offset: nat, limit: nat, i: nat, j: nat)
    requires i < j < |Select(rows, ps, order, offset, limit)|
    ensures var s := Select(rows, ps, order, offset, limit); !Before(order, s[j], s[i])
  {
    var all, s := Sort(order, Filter(rows, ps)), Select(rows, ps, order, offset, limit);
    SortProperties(order, Filter(rows, ps));
    WindowMeans(all, offset, limit);
    assert s[i] == all[offset + i] && s[j] == all[offset + j];
    LeqMeans(order, s[i], s[j]);
    hide Filter, Sort, Leq;
    if Before(order, s[j], s[i]) { NotBothBefore(order, s[i], s[j]); }
  }

  lemma NotBothBefore(order: seq<Row -> int>, a: Row, b: Row)
    requires Before(order, a, b) || EqualTerms(order, a, b)
    ensures !Before(order, b, a)
  {
    if k :| 0 <= k < |order| && order[k](a) < order[k](b) && EqualTerms(order[..k], a, b) {
      forall l | 0 <= l < k ensures order[l](a) == order[l](b) { assert order[..k][l] == order[l]; }
      forall l | 0 <= l < |order| && order[l](b) < order[l](a) ensures !EqualTerms(order[..l], b, a) {
        assert k < l ==> order[..l][k] == order[k];
      }
    }
  }

  /** Rows with the same keys stay in table order. */
  lemma StableMeans(rows: seq<Row>, order: seq<Row -> int>, r: Row)
    ensures var same := [Where(x => EqualTerms(order, x, r))]; Filter(Sort(order, rows), same) == Filter(rows, same)
  {
    var same := [Where(x => EqualTerms(order, x, r))];
    FilterSort(order, rows, same);
    var f := Filter(rows, same);
    FilterMembers(rows, same);
    forall a, b | a in f && b in f ensures Leq(order, a, b) {
      assert Holds(same[0], a) && Holds(same[0], b);
      LeqMeans(order, a, b);
    }
    AlreadySorted(order, f);
  }

  lemma {:induction false} AlreadySorted(order: seq<Row -> int>, rows: seq<Row>)
    requires forall a, b :: a in rows && b in rows ==> Leq(order, a, b)
    ensures Sort(order, rows) == rows
  {
    if rows != [] {
      var front, last := rows[..|rows| - 1], rows[|rows| - 1];
      assert rows == front + [last];
      AlreadySorted(order, front);
      InsertLast(order, front, last);
    }
  }

  /** OFFSET and LIMIT: a contiguous part that starts at the offset and has as many rows as there are, the
      limit allows or, for an offset alone, the largest 32-bit number allows. */
  lemma WindowMeans(rows: seq<Row>, offset: nat, limit: nat)
    ensures var w := Window(rows, offset, limit);
      && (forall i :: 0 <= i < |w| ==> offset + i < |rows| && w[i] == rows[offset + i])
      && (limit != 0 ==> |w| <= limit) && (limit == 0 && offset != 0 ==> |w| <= 2147483647)
      && (|w| + offset >= |rows| || (limit != 0 && |w| == limit) || (limit == 0 && offset != 0 && |w| == 2147483647))
  {
  }

  // ----- Distinct identifiers survive the whole pipeline -----

  lemma {:induction false} FilterDistinct(rows: seq<Row>, ps: seq<Pred>)
    requires DistinctIds(rows)
    ensures DistinctIds(Filter(rows, ps))
  {
    if rows != [] {
      var front, last := rows[..|rows| - 1], rows[|rows| - 1];
      FilterDistinct(front, ps);
      FilterMembers(front, ps);
      var f := Filter(front, ps);
      forall i | 0 <= i < |f| ensures f[i].id != last.id { assert f[i] in f; }
    }
  }

  lemma {:induction false} InsertDistinct(order: seq<Row -> int>, s: seq<Row>, r: Row)
    requires DistinctIds(s)
    requires forall x :: x in s ==> x.id != r.id
    ensures DistinctIds(Insert(order, s, r))
  {
    if s != [] {
      var n := |s| - 1;
      if !Leq(order, s[n], r) {
        InsertDistinct(order, s[..n], r);
        InsertMembers(order, s[..n], r);
        var t := Insert(order, s[..n], r);
        forall i | 0 <= i < |t| ensures t[i].id != s[n].id {
          assert t[i] in t;
          if t[i] != r { assert t[i] in s[..n]; }
        }
      }
    }
  }

  lemma {:induction false} SortDistinct(order: seq<Row -> int>, rows: seq<Row>)
    requires DistinctIds(rows)
    ensures DistinctIds(Sort(order, rows))
  {
    if rows != [] {
      var front, last := rows[..|rows| - 1], rows[|rows| - 1];
      SortDistinct(order, front);
      SortProperties(order, front);
      InsertDistinct(order, Sort(order, front), last);
    }
  }

  lemma SelectDistinct(rows: seq<Row>, ps: seq<Pred>, order: seq<Row -> int>, offset: nat, limit: nat)
    requires DistinctIds(rows)
    ensures DistinctIds(Select(rows, ps, order, offset, limit))
  {
    FilterDistinct(rows, ps);
    SortDistinct(order, Filter(rows, ps));
  }

  lemma SelectMembers(rows: seq<Row>, ps: seq<Pred>, order: seq<Row -> int>, offset: nat, limit: nat)
    ensures forall r :: r in Select(rows, ps, order, offset, limit) ==> r in rows && HoldsAll(ps, r)
  {
    FilterMembers(rows, ps);
    SortProperties(order, Filter(rows, ps));
  }

  /** Narrowing an unwindowed selection afterwards is the same as selecting with the narrower
      predicate in the first place. */
  lemma NarrowSelect(rows: seq<Row>, ps: seq<Pred>, wide: Pred, narrow: Pred, order: seq<Row -> int>)
    requires forall r :: r in rows && Holds(narrow, r) ==> Holds(wide, r)
    ensures Filter(Select(rows, ps + [wide], order, 0, 0), [narrow]) == Select(rows, ps + [narrow], order, 0, 0)
  {
    FilterSort(order, Filter(rows, ps + [wide]), [narrow]);
    FilterFilter(rows, ps + [wide], [narrow]);
    forall r | r in rows ensures HoldsAll(ps + [wide] + [narrow], r) == HoldsAll(ps + [narrow], r) {
      HoldsAllConcat(ps + [wide], [narrow], r);
      HoldsAllConcat(ps, [wide], r);
      HoldsAllConcat(ps, [narrow], r);
      assert [wide][0] == wide && [narrow][0] == narrow;
      assert HoldsAll([wide], r) == Holds(wide, r) && HoldsAll([narrow], r) == Holds(narrow, r);
    }
    FilterAgree(rows, ps + [wide] + [narrow], ps + [narrow]);
  }
}
