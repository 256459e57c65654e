/** Reading one institution row: `scanValues` chooses a typed destination per column, the driver
    fills it, `assignValues` moves it into the entity. */
module InstitutionScan {
  import opened Wrappers
  import opened RowSet
  import opened Schemas
  import opened EagerLoad
  import opened LoadedValues

  /** A stored row; every column but the identifier may be NULL. `extra` holds columns that are not
      part of the schema, such as computed ones. */
  datatype Stored = Stored(
    id: int, createdAt: Option<int>, updatedAt: Option<int>, code: Option<string>, name: Option<string>,
    kind: Option<string>, currency: Option<Id>, extra: map<Column, Value>)

  datatype Institution = Institution(
    id: int, createdAt: int, updatedAt: int, code: string, name: string, kind: string, currency: Option<Id>,
    selectValues: map<Column, Option<Value>>)

  const BLANK := Institution(0, 0, 0, "", "", "", None, map[])

  /** The destination types `scanValues` hands to the driver. */
  datatype Dest = DestInt | DestString | DestTime | DestUuid | DestUnknown

  /** A destination after the driver has filled it; `None` is SQL NULL. */
  datatype Slot =
    | NullInt64(int64: Option<int>)
    | NullString(str: Option<string>)
    | NullTime(time: Option<int>)
    | NullUuid(uuid: Option<Id>)
    | Unknown(raw: Option<Value>)

  datatype ScanError = TooFewValues | UnexpectedType(column: Column)

  /** The columns `scanValues` and `assignValues` tell apart. */
  datatype Field = FieldId | FieldCode | FieldName | FieldType | FieldCreatedAt | FieldUpdatedAt | FieldCurrency | Other

  function FieldOf(column: Column): Field {
    if column == "id" then FieldId
    else if column == "code" then FieldCode
    else if column == "name" then FieldName
    else if column == "type" then FieldType
    else if column == "created_at" then FieldCreatedAt
    else if column == "updated_at" then FieldUpdatedAt
    else if column == CURRENCY_OF_INSTITUTION then FieldCurrency
    else Other
  }

  function DestOf(column: Column): Dest {
    match FieldOf(column)
    case FieldId => DestInt
    case FieldCode | FieldName | FieldType => DestString
    case FieldCreatedAt | FieldUpdatedAt => DestTime
    case FieldCurrency => DestUuid
    case Other => DestUnknown
  }

  method ScanValues(columns: seq<Column>) returns (dests: seq<Dest>)
    ensures |dests| == |columns|
    ensures forall i :: 0 <= i < |columns| ==> dests[i] == DestOf(columns[i])
  {
    dests := [];
    for i := 0 to |columns|
      invariant |dests| == i
      invariant forall k :: 0 <= k < i ==> dests[k] == DestOf(columns[k])
    {
      dests := dests + [DestOf(columns[i])];
    }
  }

  /** A cell as the database holds it, by the type of its column. */
  datatype Cell =
    | IntCell(int64: Option<int>)
    | TextCell(text: Option<string>)
    | TimeCell(time: Option<int>)
    | UuidCell(uuid: Option<Id>)
    | RawCell(raw: Option<Value>)

  function CellOf(row: Stored, column: Column): Cell {
    match FieldOf(column)
    case FieldId => IntCell(Some(row.id))
    case FieldCode => TextCell(row.code)
    case FieldName => TextCell(row.name)
    case FieldType => TextCell(row.kind)
    case FieldCreatedAt => TimeCell(row.createdAt)
    case FieldUpdatedAt => TimeCell(row.updatedAt)
    case FieldCurrency => UuidCell(row.currency)
    case Other => RawCell(Extra(row, column))
  }

  /** The driver fills a destination; a cell of another type does not get through. */
  function Fill(dest: Dest, cell: Cell): Slot {
    match dest
    case DestInt => NullInt64(if cell.IntCell? then cell.int64 else None)
    case DestString => NullString(if cell.TextCell? then cell.text else None)
    case DestTime => NullTime(if cell.TimeCell? then cell.time else None)
    case DestUuid => NullUuid(if cell.UuidCell? then cell.uuid else None)
    case DestUnknown => Unknown(if cell.RawCell? then cell.raw else None)
  }

  /** What must arrive at `assignValues` for a column. */
  ghost function Landed(row: Stored, column: Column): (slot: Slot)
    ensures Fits(column, slot)
  {
    match FieldOf(column)
    case FieldId => NullInt64(Some(row.id))
    case FieldCode => NullString(row.code)
    case FieldName => NullString(row.name)
    case FieldType => NullString(row.kind)
    case FieldCreatedAt => NullTime(row.createdAt)
    case FieldUpdatedAt => NullTime(row.updatedAt)
    case FieldCurrency => NullUuid(row.currency)
    case Other => Unknown(Extra(row, column))
  }

  function Extra(row: Stored, column: Column): Option<Value> {
    if column in row.extra then Some(row.extra[column]) else None
  }

  /** The slot has the type that `assignValues` asserts for the column. */
  predicate Fits(column: Column, slot: Slot) {
    match DestOf(column)
    case DestInt => slot.NullInt64?
    case DestString => slot.NullString?
    case DestTime => slot.NullTime?
    case DestUuid => slot.NullUuid?
    case DestUnknown => true
  }

  function Or<T>(o: Option<T>, default: T): T {
    if o.Some? then o.value else default
  }

  /** One column of `assignValues`; a NULL leaves the field alone, except that the identifier is
      taken without looking. */
  function Assign(node: Institution, column: Column, slot: Slot): Institution
    requires Fits(column, slot)
  {
    match FieldOf(column)
    case FieldId => node.(id := Or(slot.int64, 0))
    case FieldCreatedAt => node.(createdAt := Or(slot.time, node.createdAt))
    case FieldUpdatedAt => node.(updatedAt := Or(slot.time, node.updatedAt))
    case FieldCode => node.(code := Or(slot.str, node.code))
    case FieldName => node.(name := Or(slot.str, node.name))
    case FieldType => node.(kind := Or(slot.str, node.kind))
    case FieldCurrency => node.(currency := if slot.uuid.Some? then slot.uuid else node.currency)
    case Other => node.(selectValues := node.selectValues[column := if slot.Unknown? then slot.raw else None])
  }

  ghost function AssignUpTo(columns: seq<Column>, values: seq<Slot>, n: nat): Institution
    requires n <= |columns| <= |values|
    requires forall j :: 0 <= j < n ==> Fits(columns[j], values[j])
  {
    if n == 0 then BLANK else Assign(AssignUpTo(columns, values, n - 1), columns[n - 1], values[n - 1])
  }

  /** Fails exactly on missing or ill-typed values. */
  method AssignValues(columns: seq<Column>, values: seq<Slot>) returns (r: Result<Institution, ScanError>)
    ensures r.Ok? <==> |columns| <= |values| && forall j :: 0 <= j < |columns| ==> Fits(columns[j], values[j])
    ensures r.Ok? ==> r.value == AssignUpTo(columns, values, |columns|)
  {
    if |values| < |columns| { return Err(TooFewValues); }
    var node := BLANK;
    for j := 0 to |columns|
      invariant forall k :: 0 <= k < j ==> Fits(columns[k], values[k])
      invariant node == AssignUpTo(columns, values, j)
    {
      if !Fits(columns[j], values[j]) { return Err(UnexpectedType(columns[j])); }
      node := Assign(node, columns[j], values[j]);
    }
    r := Ok(node);
  }

  predicate Has(columns: seq<Column>, f: Field) {
    exists j :: 0 <= j < |columns| && FieldOf(columns[j]) == f
  }

  /** The entity that holds the fetched part of the row and zero values elsewhere. */
  function Restricted(row: Stored, columns: seq<Column>): Institution {
    Institution(
      if Has(columns, FieldId) then row.id else 0,
      if Has(columns, FieldCreatedAt) then Or(row.createdAt, 0) else 0,
      if Has(columns, FieldUpdatedAt) then Or(row.updatedAt, 0) else 0,
      if Has(columns, FieldCode) then Or(row.code, "") else "",
      if Has(columns, FieldName) then Or(row.name, "") else "",
      if Has(columns, FieldType) then Or(row.kind, "") else "",
      if Has(columns, FieldCurrency) then row.currency else None,
      SelectValues(row, columns))
  }

  lemma HasSnoc(columns: seq<Column>, c: Column, f: Field)
    ensures Has(columns + [c], f) <==> Has(columns, f) || FieldOf(c) == f
  {
    if Has(columns, f) {
      var j :| 0 <= j < |columns| && FieldOf(columns[j]) == f;
      assert FieldOf((columns + [c])[j]) == f;
    }
    assert (columns + [c])[|columns|] == c;
  }

  function SelectValues(row: Stored, columns: seq<Column>): map<Column, Option<Value>> {
    map c | c in columns && FieldOf(c) == Other :: Extra(row, c)
  }

  lemma SelectValuesSnoc(row: Stored, columns: seq<Column>, c: Column)
    ensures SelectValues(row, columns + [c])
         == if FieldOf(c) == Other then SelectValues(row, columns)[c := Extra(row, c)] else SelectValues(row, columns)
  {
    hide FieldOf;
  }

  lemma RestrictedSnoc(row: Stored, columns: seq<Column>, c: Column)
    ensures Restricted(row, columns + [c]) == Assign(Restricted(row, columns), c, Landed(row, c))
  {
    forall f: Field ensures Has(columns + [c], f) <==> Has(columns, f) || FieldOf(c) == f { HasSnoc(columns, c, f); }
    SelectValuesSnoc(row, columns, c);
    hide FieldOf, Has, SelectValues;
    match FieldOf(c) {
      case FieldId =>
      case FieldCode =>
      case FieldName =>
      case FieldType =>
      case FieldCreatedAt =>
      case FieldUpdatedAt =>
      case FieldCurrency =>
      case Other =>
    }
  }

  lemma {:induction false} AssignRestricts(row: Stored, columns: seq<Column>, values: seq<Slot>, n: nat)
    requires n <= |columns| == |values|
    requires forall j :: 0 <= j < |columns| ==> values[j] == Landed(row, columns[j])
    ensures forall j :: 0 <= j < n ==> Fits(columns[j], values[j])
    ensures AssignUpTo(columns, values, n) == Restricted(row, columns[..n])
  {
    hide FieldOf, Has, SelectValues;
    if n == 0 {
      NothingRead(row);
      assert columns[..0] == [];
    } else {
      AssignRestricts(row, columns, values, n - 1);
      assert columns[..n] == columns[..n - 1] + [columns[n - 1]];
      RestrictedSnoc(row, columns[..n - 1], columns[n - 1]);
      hide Assign, Restricted;
    }
  }

  lemma NothingRead(row: Stored)
    ensures Restricted(row, []) == BLANK
  {
  }

  /** For every column list, repeated and unknown columns included, reading a row succeeds and yields
      exactly the fetched part of the row. */
  method ReadRow(columns: seq<Column>, row: Stored) returns (r: Result<Institution, ScanError>)
    ensures r == Ok(Restricted(row, columns))
  {
    var dests := ScanValues(columns);
    var values := [];
    for i := 0 to |columns|
      invariant |values| == i
      invariant forall k :: 0 <= k < i ==> values[k] == Landed(row, columns[k])
    {
      values := values + [Fill(dests[i], CellOf(row, columns[i]))];
    }
    AssignRestricts(row, columns, values, |columns|);
    assert columns[..|columns|] == columns;
    r := AssignValues(columns, values);
  }

  /** The same by the names of the columns: each column lands in the field of its name and in no other. */
  lemma RestrictedByName(row: Stored, columns: seq<Column>)
    ensures var i := Restricted(row, columns);
      && i.id == (if "id" in columns then row.id else 0)
      && i.createdAt == (if "created_at" in columns && row.createdAt.Some? then row.createdAt.value else 0)
      && i.updatedAt == (if "updated_at" in columns && row.updatedAt.Some? then row.updatedAt.value else 0)
      && i.code == (if "code" in columns && row.code.Some? then row.code.value else "")
      && i.name == (if "name" in columns && row.name.Some? then row.name.value else "")
      && i.kind == (if "type" in columns && row.kind.Some? then row.kind.value else "")
      && i.currency == (if "fiat_currency_institutions" in columns then row.currency else None)
    ensures forall c :: c in Restricted(row, columns).selectValues <==> c in columns && !IsField(c)
    ensures forall c :: c in Restricted(row, columns).selectValues ==>
              Restricted(row, columns).selectValues[c] == if c in row.extra then Some(row.extra[c]) else None
  {
    HasName(columns, "id", FieldId);
    HasName(columns, "created_at", FieldCreatedAt);
    HasName(columns, "updated_at", FieldUpdatedAt);
    HasName(columns, "code", FieldCode);
    HasName(columns, "name", FieldName);
    HasName(columns, "type", FieldType);
    HasName(columns, "fiat_currency_institutions", FieldCurrency);
    forall c ensures FieldOf(c) == Other <==> !IsField(c) { OtherColumns(c); }
    hide Has, FieldOf, IsField;
  }

  ghost predicate IsField(c: Column) {
    c in ["id", "created_at", "updated_at", "code", "name", "type", "fiat_currency_institutions"]
  }

  lemma OtherColumns(c: Column)
    ensures FieldOf(c) == Other <==> !IsField(c)
  {
  }

  lemma HasName(columns: seq<Column>, name: Column, f: Field)
    requires f != Other && FieldOf(name) == f
    ensures Has(columns, f) <==> name in columns
  {
    forall c | FieldOf(c) == f ensures c == name { }
    if name in columns {
      var j :| 0 <= j < |columns| && columns[j] == name;
      assert FieldOf(columns[j]) == f;
    }
  }

  // ----- The fetched columns -----

  /** Whatever is selected, the identifier is fetched, so are the selected columns, nothing else is
      but the foreign keys, and those exactly when they are asked for. */
  lemma FetchedColumns(e: Entity, fields: seq<Column>, fks: bool, c: Column)
    requires "id" in e.columns
    ensures c in ColumnList(e, fields, fks) <==>
              || c == "id"
              || (if fields == [] then c in e.columns else c in fields)
              || (fks && c in e.foreignKeys)
  {
    SelectedFields(fields, c);
  }
}
