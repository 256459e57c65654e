/** Creating institutions: the hooks of a builder, its checks, single and bulk saves.

    Bulk `Save` is a chain of closures in which each builder's mutator, wrapped in that builder's
    hooks, calls the next one and only the last one writes.  It is proved against a flat account:
    first every builder is admitted in index order, then one batch is written, then the hooks that
    act after the write have their say from the last builder back to the first. */
module BulkCreate {
  import opened Wrappers
  import opened RowSet

  // ----- Mutations, checks and rows -----

  datatype Draft = Draft(
    createdAt: Option<int>, updatedAt: Option<int>, code: Option<string>, name: Option<string>,
    kind: Option<string>, currency: Option<Id>)

  datatype Error =
    | MissingField(field: string)
    | BadType
    | HookFailed(reason: int)
    | ConstraintViolated
    | DriverFailed

  const BANK := "bank"
  const MOBILE_MONEY := "mobile_money"

  function Defaults(d: Draft, now: int): Draft {
    d.(createdAt := if d.createdAt.None? then Some(now) else d.createdAt,
       updatedAt := if d.updatedAt.None? then Some(now) else d.updatedAt,
       kind := if d.kind.None? then Some(BANK) else d.kind)
  }

  function Check(d: Draft): Option<Error> {
    if d.createdAt.None? then Some(MissingField("created_at"))
    else if d.updatedAt.None? then Some(MissingField("updated_at"))
    else if d.code.None? then Some(MissingField("code"))
    else if d.name.None? then Some(MissingField("name"))
    else if d.kind.None? then Some(MissingField("type"))
    else if d.kind.value != BANK && d.kind.value != MOBILE_MONEY then Some(BadType)
    else None
  }

  /** The defaults: the current time twice and a bank; what was set stays. */
  lemma DefaultsMean(d: Draft, now: int)
    ensures var f := Defaults(d, now);
      && f.createdAt == Some(if d.createdAt.Some? then d.createdAt.value else now)
      && f.updatedAt == Some(if d.updatedAt.Some? then d.updatedAt.value else now)
      && f.kind == Some(if d.kind.Some? then d.kind.value else "bank")
      && f.code == d.code && f.name == d.name && f.currency == d.currency
  {
  }

  /** Which error the checks report: the first missing field in the order of the columns, by its name. */
  lemma CheckMeans(d: Draft)
    ensures Check(d) == Some(MissingField("created_at")) <==> d.createdAt.None?
    ensures Check(d) == Some(MissingField("updated_at")) <==> d.createdAt.Some? && d.updatedAt.None?
    ensures Check(d) == Some(MissingField("code")) <==> d.createdAt.Some? && d.updatedAt.Some? && d.code.None?
    ensures Check(d) == Some(MissingField("name")) <==>
              d.createdAt.Some? && d.updatedAt.Some? && d.code.Some? && d.name.None?
    ensures Check(d) == Some(MissingField("type")) <==>
              d.createdAt.Some? && d.updatedAt.Some? && d.code.Some? && d.name.Some? && d.kind.None?
    ensures Check(d) == Some(BadType) <==>
              && d.createdAt.Some? && d.updatedAt.Some? && d.code.Some? && d.name.Some? && d.kind.Some?
              && d.kind.value != "bank" && d.kind.value != "mobile_money"
    ensures Check(d).None? <==>
              && d.createdAt.Some? && d.updatedAt.Some? && d.code.Some? && d.name.Some?
              && d.kind in {Some("bank"), Some("mobile_money")}
  {
    assert |"created_at"| == 10 && |"updated_at"| == 10 && |"code"| == 4 && |"name"| == 4 && |"type"| == 4;
    assert "created_at"[0] != "updated_at"[0] && "code"[0] != "name"[0];
    assert "code"[0] != "type"[0] && "name"[0] != "type"[0];
  }

  /** After the defaults only the code, the name and a bad type can be missed, and nothing that was set
      is changed. */
  lemma DefaultsThenCheck(d: Draft, now: int)
    ensures Check(Defaults(d, now)).None? <==>
              d.code.Some? && d.name.Some? && (d.kind.Some? ==> d.kind.value in {BANK, MOBILE_MONEY})
    ensures d.createdAt.Some? && d.updatedAt.Some? && d.kind.Some? ==> Defaults(d, now) == d
    ensures Defaults(Defaults(d, now), now) == Defaults(d, now)
  {
  }

  datatype Stored = Stored(id: int, draft: Draft)

  datatype Table = Table(rows: seq<Stored>, nextId: int)

  /** A column that may not be NULL has no value; the type column has a default. */
  predicate Incomplete(d: Draft) {
    d.createdAt.None? || d.updatedAt.None? || d.code.None? || d.name.None?
  }

  /** Columns that may not be NULL, the unique index on the code, and whatever else makes the driver
      fail (a foreign key, the connection). */
  function WriteError(t: Table, drafts: seq<Draft>, driverFails: bool): Option<Error> {
    if exists i :: 0 <= i < |drafts| && Incomplete(drafts[i]) then Some(ConstraintViolated)
    else if exists i, k :: 0 <= i < |drafts| && 0 <= k < |t.rows| && Clash(drafts[i], t.rows[k].draft) then
      Some(ConstraintViolated)
    else if exists i, j :: 0 <= i < j < |drafts| && Clash(drafts[i], drafts[j]) then Some(ConstraintViolated)
    else if driverFails then Some(DriverFailed)
    else None
  }

  predicate Clash(d: Draft, d': Draft) {
    d.code.Some? && d.code == d'.code
  }

  /** The rows of a batch, with identifiers given out in order. */
  function NewRows(nextId: int, drafts: seq<Draft>): seq<Stored> {
    seq(|drafts|, i requires 0 <= i < |drafts| => Stored(nextId + i, drafts[i]))
  }

  function Written(t: Table, drafts: seq<Draft>): Table {
    Table(t.rows + NewRows(t.nextId, drafts), t.nextId + |drafts|)
  }

  // ----- Hooks -----

  /** A hook either fails or calls the next mutator once, possibly with a changed or another mutation. */
  datatype Hook =
    | PassOn
    | Change(f: Draft -> Draft)
    | Replace(g: Draft -> Draft)
    | FailBefore(before: Error)
    | FailAfter(after: Error)

  /** How far a builder's mutation gets: `own` is what its own mutation holds when the innermost
      mutator is reached, `sent` what the mutation passed to it holds. */
  datatype Trip = Blocked(error: Error) | Reaches(own: Draft, sent: Draft)

  function Travel(hooks: seq<Hook>, own: Draft, sent: Draft, replaced: bool): Trip {
    if hooks == [] then Reaches(own, sent)
    else
      match hooks[0]
      case PassOn => Travel(hooks[1..], own, sent, replaced)
      case FailAfter(_) => Travel(hooks[1..], own, sent, replaced)
      case Change(f) => Travel(hooks[1..], if replaced then own else f(sent), f(sent), replaced)
      case Replace(g) => Travel(hooks[1..], own, g(sent), true)
      case FailBefore(e) => Blocked(e)
  }

  /** The error of the innermost hook that fails after the call succeeded. */
  function AfterError(hooks: seq<Hook>): Option<Error> {
    if hooks == [] then None
    else
      var inner := AfterError(hooks[1..]);
      if inner.Some? then inner else if hooks[0].FailAfter? then Some(hooks[0].after) else None
  }

  // ----- The flat account of a bulk save -----

  /** What builder `i` contributes to the batch: note that its own mutation is checked, and the one
      that was passed on is written. */
  function Admit(hooks: seq<Hook>, d: Draft): Result<Draft, Error> {
    match Travel(hooks, d, d, false)
    case Blocked(e) => Err(e)
    case Reaches(own, sent) => if Check(own).Some? then Err(Check(own).value) else Ok(sent)
  }

  /** Builders `i` and later are admitted in order; the first failure stops it. */
  function AdmitFrom(hooks: seq<seq<Hook>>, drafts: seq<Draft>, i: nat): (r: Result<seq<Draft>, Error>)
    requires |hooks| == |drafts| && i <= |drafts|
    ensures r.Ok? ==> |r.value| == |drafts| - i
    decreases |drafts| - i
  {
    if i == |drafts| then Ok([])
    else
      match Admit(hooks[i], drafts[i])
      case Err(e) => Err(e)
      case Ok(d) =>
        match AdmitFrom(hooks, drafts, i + 1)
        case Err(e) => Err(e)
        case Ok(ds) => Ok([d] + ds)
  }

  /** The batch is complete exactly if every builder on its own is admitted, and then holds what each
      contributes at its index; otherwise the first builder that is not admitted decides the error. */
  lemma {:induction false} FirstFailureDecides(hooks: seq<seq<Hook>>, drafts: seq<Draft>, i: nat)
    requires |hooks| == |drafts| && i <= |drafts|
    ensures AdmitFrom(hooks, drafts, i).Ok? <==> forall j :: i <= j < |drafts| ==> Admit(hooks[j], drafts[j]).Ok?
    ensures AdmitFrom(hooks, drafts, i).Ok? ==>
              forall k :: 0 <= k < |drafts| - i ==>
                Admit(hooks[i + k], drafts[i + k]) == Ok(AdmitFrom(hooks, drafts, i).value[k])
    ensures AdmitFrom(hooks, drafts, i).Err? ==>
              exists j :: i <= j < |drafts| && Admit(hooks[j], drafts[j]) == Err(AdmitFrom(hooks, drafts, i).error)
                && forall l :: i <= l < j ==> Admit(hooks[l], drafts[l]).Ok?
    decreases |drafts| - i
  {
    hide Admit;
    if i < |drafts| {
      FirstFailureDecides(hooks, drafts, i + 1);
      var all := AdmitFrom(hooks, drafts, i);
      if all.Ok? {
        forall k | 0 <= k < |drafts| - i ensures Admit(hooks[i + k], drafts[i + k]) == Ok(all.value[k]) {
          if k > 0 { assert all.value[k] == AdmitFrom(hooks, drafts, i + 1).value[k - 1]; }
        }
      }
    }
  }

  /** After a successful write: the last builder with a hook that fails afterwards decides. */
  function BackTo(hooks: seq<seq<Hook>>, i: nat): Option<Error>
    requires i <= |hooks|
    decreases |hooks| - i
  {
    if i == |hooks| then None
    else
      var later := BackTo(hooks, i + 1);
      if later.Some? then later else AfterError(hooks[i])
  }

  /** What the mutation of a builder says afterwards: whether it is done, and the identifier it has. */
  datatype Ending = Ending(done: bool, id: Option<int>)

  const UNDONE := Ending(false, None)

  /** The table afterwards, what is returned, and how the mutation of every builder ends. */
  datatype Outcome<T> = Outcome(table: Table, result: Result<T, Error>, endings: seq<Ending>)

  function BulkOutcome(hooks: seq<seq<Hook>>, drafts: seq<Draft>, t: Table, driverFails: bool): Outcome<seq<Node>>
    requires |hooks| == |drafts|
  {
    var nothing := seq(|hooks|, _ => UNDONE);
    match AdmitFrom(hooks, drafts, 0)
    case Err(e) => Outcome(t, Err(e), nothing)
    case Ok(batch) =>
      if |hooks| == 0 then Outcome(t, Ok([]), nothing)
      else if WriteError(t, batch, driverFails).Some? then
        Outcome(t, Err(WriteError(t, batch, driverFails).value), nothing)
      else
        Outcome(Written(t, batch),
                if BackTo(hooks, 0).Some? then Err(BackTo(hooks, 0).value) else Ok(NewNodes(t.nextId, batch)),
                EndingsAfterWrite(hooks, t.nextId))
  }

  /** After the write a builder is done exactly if no later builder's hook failed; a failing hook of its
      own comes too late. */
  function EndingsAfterWrite(hooks: seq<seq<Hook>>, nextId: int): seq<Ending> {
    seq(|hooks|, j requires 0 <= j < |hooks| =>
      if BackTo(hooks, j + 1).None? then Ending(true, Some(nextId + j)) else UNDONE)
  }

  function NewNodes(nextId: int, batch: seq<Draft>): seq<Node> {
    seq(|batch|, i requires 0 <= i < |batch| => Node(nextId + i, batch[i]))
  }

  // ----- What is in the table afterwards -----

  /** `t'` is `t` with `n` rows added behind the old ones, numbered on from `t.nextId`. */
  ghost predicate Extends(t: Table, t': Table, n: nat) {
    && |t'.rows| == |t.rows| + n && t'.nextId == t.nextId + n
    && (forall k :: 0 <= k < |t.rows| ==> t'.rows[k] == t.rows[k])
    && (forall k :: |t.rows| <= k < |t'.rows| ==> t'.rows[k].id == t.nextId + (k - |t.rows|))
  }

  /** Identifiers are unique and smaller than the next one. */
  ghost predicate IdsUnique(t: Table) {
    && (forall k :: 0 <= k < |t.rows| ==> t.rows[k].id < t.nextId)
    && (forall k, l :: 0 <= k < l < |t.rows| ==> t.rows[k].id != t.rows[l].id)
  }

  ghost function DraftsIn(t: Table): seq<Draft> {
    seq(|t.rows|, k requires 0 <= k < |t.rows| => t.rows[k].draft)
  }

  /** Every draft has its required columns and no two have the same code. */
  ghost predicate Allowed(ds: seq<Draft>) {
    && (forall k :: 0 <= k < |ds| ==>
          ds[k].createdAt.Some? && ds[k].updatedAt.Some? && ds[k].code.Some? && ds[k].name.Some?)
    && (forall k, l :: 0 <= k < l < |ds| ==> ds[k].code != ds[l].code)
  }

  lemma WrittenExtends(t: Table, drafts: seq<Draft>)
    ensures Extends(t, Written(t, drafts), |drafts|)
    ensures forall j :: 0 <= j < |drafts| ==> Written(t, drafts).rows[|t.rows| + j].draft == drafts[j]
    ensures IdsUnique(t) ==> IdsUnique(Written(t, drafts))
  {
    var t' := Written(t, drafts);
    assert forall k :: |t.rows| <= k < |t'.rows| ==> t'.rows[k] == NewRows(t.nextId, drafts)[k - |t.rows|];
  }

  /** The database refuses exactly the batches that would break its constraints, and otherwise fails exactly
      if the driver does. */
  lemma WriteErrorMeans(t: Table, drafts: seq<Draft>, driverFails: bool)
    requires Allowed(DraftsIn(t))
    ensures WriteError(t, drafts, driverFails) ==
            if !Allowed(DraftsIn(Written(t, drafts))) then Some(ConstraintViolated)
            else if driverFails then Some(DriverFailed) else None
  {
    var was, all := DraftsIn(t), DraftsIn(Written(t, drafts));
    assert all == was + drafts;
    assert forall k :: 0 <= k < |t.rows| ==> t.rows[k].draft == was[k];
    hide Written, NewRows, DraftsIn;
    AllowedTogether(was, drafts);
    assert (exists i, k :: 0 <= i < |drafts| && 0 <= k < |t.rows| && Clash(drafts[i], t.rows[k].draft))
      <==> (exists i, k :: 0 <= i < |drafts| && 0 <= k < |was| && Clash(drafts[i], was[k]));
    hide Allowed, Clash, Incomplete;
  }

  lemma AllowedTogether(a: seq<Draft>, b: seq<Draft>)
    requires Allowed(a)
    ensures Allowed(a + b) <==>
              && (forall i :: 0 <= i < |b| ==> !Incomplete(b[i]))
              && (forall i, k :: 0 <= i < |b| && 0 <= k < |a| ==> !Clash(b[i], a[k]))
              && (forall i, j :: 0 <= i < j < |b| ==> !Clash(b[i], b[j]))
  {
    if Allowed(a + b) {
      TogetherApart(a, b);
    } else if && (forall i :: 0 <= i < |b| ==> !Incomplete(b[i]))
              && (forall i, k :: 0 <= i < |b| && 0 <= k < |a| ==> !Clash(b[i], a[k]))
              && (forall i, j :: 0 <= i < j < |b| ==> !Clash(b[i], b[j])) {
      ApartTogether(a, b);
    }
  }

  lemma TogetherApart(a: seq<Draft>, b: seq<Draft>)
    requires Allowed(a + b)
    ensures forall i :: 0 <= i < |b| ==> !Incomplete(b[i])
    ensures forall i, k :: 0 <= i < |b| && 0 <= k < |a| ==> !Clash(b[i], a[k])
    ensures forall i, j :: 0 <= i < j < |b| ==> !Clash(b[i], b[j])
  {
    var ab := a + b;
    forall i | 0 <= i < |b| ensures ab[|a| + i] == b[i] && !Incomplete(b[i]) { }
    forall i, k | 0 <= i < |b| && 0 <= k < |a| ensures !Clash(b[i], a[k]) {
      assert ab[k] == a[k] && ab[|a| + i] == b[i];
    }
    forall i, j | 0 <= i < j < |b| ensures !Clash(b[i], b[j]) {
      assert ab[|a| + i] == b[i] && ab[|a| + j] == b[j];
    }
  }

  lemma ApartTogether(a: seq<Draft>, b: seq<Draft>)
    requires Allowed(a)
    requires forall i :: 0 <= i < |b| ==> !Incomplete(b[i])
    requires forall i, k :: 0 <= i < |b| && 0 <= k < |a| ==> !Clash(b[i], a[k])
    requires forall i, j :: 0 <= i < j < |b| ==> !Clash(b[i], b[j])
    ensures Allowed(a + b)
  {
    var ab, n := a + b, |a|;
    forall k | 0 <= k < |ab| ensures ab[k] == (if k < n then a[k] else b[k - n]) { }
    forall k, l | 0 <= k < l < |ab| ensures ab[k].code != ab[l].code {
      if n <= l {
        assert !Incomplete(b[l - n]);
        if k < n { assert !Clash(b[l - n], a[k]); } else { assert !Clash(b[k - n], b[l - n]); }
      }
    }
  }

  /** A bulk save leaves the table alone or adds one row per builder, in builder order: row `j` holds what
      builder `j` contributes and has the identifier its mutation gets; on success every returned node is
      the row at its position. */
  lemma RowsOfOutcome(hooks: seq<seq<Hook>>, drafts: seq<Draft>, t: Table, driverFails: bool)
    requires |hooks| == |drafts|
    ensures var o, n := BulkOutcome(hooks, drafts, t, driverFails), |t.rows|;
      && (o.table != t ==>
            && Extends(t, o.table, |hooks|)
            && (forall j :: 0 <= j < |hooks| ==> Admit(hooks[j], drafts[j]) == Ok(o.table.rows[n + j].draft))
            && (forall j :: 0 <= j < |hooks| ==>
                  o.endings[j] in {UNDONE, Ending(true, Some(o.table.rows[n + j].id))}))
      && (o.result.Ok? ==>
            && Extends(t, o.table, |hooks|) && |o.result.value| == |hooks|
            && (forall j :: 0 <= j < |hooks| ==>
                  o.table.rows[n + j] == Stored(o.result.value[j].id, o.result.value[j].draft)))
      && (IdsUnique(t) ==> IdsUnique(o.table)) && (Allowed(DraftsIn(t)) ==> Allowed(DraftsIn(o.table)))
  {
    hide AdmitFrom, Admit, BackTo, WriteError, Written, NewRows, Allowed, DraftsIn, IdsUnique, Extends, NewNodes;
    hide EndingsAfterWrite;
    var admitted := AdmitFrom(hooks, drafts, 0);
    if admitted.Ok? {
      var batch, t' := admitted.value, Written(t, admitted.value);
      WrittenExtends(t, batch);
      if Allowed(DraftsIn(t)) { WriteErrorMeans(t, batch, driverFails); }
      BatchRows(hooks, drafts, t, t', batch);
      EmptyExtends(t);
    }
  }

  lemma EmptyExtends(t: Table)
    ensures Extends(t, t, 0)
  {
  }

  /** Drafts, endings and nodes of a batch against the rows written for it. */
  lemma BatchRows(hooks: seq<seq<Hook>>, drafts: seq<Draft>, t: Table, t': Table, batch: seq<Draft>)
    requires |hooks| == |drafts| == |batch| && AdmitFrom(hooks, drafts, 0) == Ok(batch) && Extends(t, t', |batch|)
    requires forall j :: 0 <= j < |batch| ==> t'.rows[|t.rows| + j].draft == batch[j]
    ensures forall j :: 0 <= j < |hooks| ==> Admit(hooks[j], drafts[j]) == Ok(t'.rows[|t.rows| + j].draft)
    ensures |EndingsAfterWrite(hooks, t.nextId)| == |hooks|
    ensures forall j :: 0 <= j < |hooks| ==>
              EndingsAfterWrite(hooks, t.nextId)[j] in {UNDONE, Ending(true, Some(t'.rows[|t.rows| + j].id))}
    ensures |NewNodes(t.nextId, batch)| == |hooks|
    ensures forall j :: 0 <= j < |hooks| ==>
              t'.rows[|t.rows| + j] == Stored(NewNodes(t.nextId, batch)[j].id, NewNodes(t.nextId, batch)[j].draft)
  {
    hide AdmitFrom, Admit, BackTo;
    var n := |t.rows|;
    forall j | 0 <= j < |hooks|
      ensures Admit(hooks[j], drafts[j]) == Ok(t'.rows[n + j].draft)
      ensures EndingsAfterWrite(hooks, t.nextId)[j] in {UNDONE, Ending(true, Some(t'.rows[n + j].id))}
      ensures t'.rows[n + j] == Stored(NewNodes(t.nextId, batch)[j].id, NewNodes(t.nextId, batch)[j].draft)
    {
      AdmittedAt(hooks, drafts, batch, j);
      var row := t'.rows[n + j];
      assert row.draft == batch[j] && row.id == t.nextId + j;
    }
  }

  lemma AdmittedAt(hooks: seq<seq<Hook>>, drafts: seq<Draft>, batch: seq<Draft>, j: nat)
    requires |hooks| == |drafts| && AdmitFrom(hooks, drafts, 0) == Ok(batch) && j < |batch|
    ensures Admit(hooks[j], drafts[j]) == Ok(batch[j])
  {
    FirstFailureDecides(hooks, drafts, 0);
    hide AdmitFrom, Admit;
    assert Admit(hooks[0 + j], drafts[0 + j]) == Ok(batch[j]);
  }

  // ----- The chain of mutators -----

  /** A mutation object; `node == Some(i)` says that its identifier points at that of node `i`. */
  datatype Mutation = Mutation(draft: Draft, node: Option<nat>, done: bool)

  datatype Node = Node(id: int, draft: Draft)

  datatype Spec = Spec(draft: Draft, id: Option<int>)

  class BulkSave {
    const hooks: seq<seq<Hook>>
    const driverFails: bool
    /** What each builder's mutation holds after `defaults`. */
    ghost const drafts: seq<Draft>
    /** All mutation objects; builder `i` starts out with object `i`, replacements come later. */
    var mutations: seq<Mutation>
    /** The mutation object each builder is bound to. */
    var bound: seq<nat>
    var nodes: seq<Option<Node>>
    var specs: seq<Option<Spec>>
    var table: Table
    ghost var writes: nat

    constructor (builders: seq<(Draft, seq<Hook>)>, now: int, table: Table, driverFails: bool)
      ensures |drafts| == |builders| && hooks == seq(|builders|, i requires 0 <= i < |builders| => builders[i].1)
      ensures forall i :: 0 <= i < |builders| ==> drafts[i] == Defaults(builders[i].0, now)
      ensures this.table == table && this.driverFails == driverFails && writes == 0
      ensures |hooks| == |drafts| && Started(drafts, State())
    {
      this.hooks := seq(|builders|, i requires 0 <= i < |builders| => builders[i].1);
      this.driverFails, this.table, this.writes := driverFails, table, 0;
      this.drafts := seq(|builders|, i requires 0 <= i < |builders| => Defaults(builders[i].0, now));
      mutations := seq(|builders|, i requires 0 <= i < |builders| =>
        Mutation(Defaults(builders[i].0, now), None, false));
      bound := seq(|builders|, i => i);
      nodes := seq(|builders|, _ => None);
      specs := seq(|builders|, _ => None);
    }

    ghost function State(): Snapshot
      reads this
    {
      Snapshot(mutations, bound, nodes, specs, table, writes)
    }

    /** Bulk `Save`: at most one write, only once every builder was admitted; on success the nodes come
        back in builder order, each being the row written for its builder, and every mutation is done and
        points at the identifier of its node.  On a failing exit a mutation is done exactly if the batch
        was written and no later hook failed. */
    method Save() returns (r: Result<seq<Node>, Error>)
      requires |hooks| == |drafts| && Started(drafts, State())
      modifies this
      ensures Outcome(table, r, Endings(State())) == BulkOutcome(hooks, drafts, old(table), driverFails)
      ensures forall j :: 0 <= j < |hooks| ==>
                (Endings(State())[j].done <==> table != old(table) && BackTo(hooks, j + 1).None?)
      ensures writes == old(writes) + if |hooks| > 0 && AdmitFrom(hooks, drafts, 0).Ok? then 1 else 0
      ensures r.Ok? ==> forall j :: 0 <= j < |hooks| ==> Finished(State(), j, r.value[j].draft, r.value[j].id)
      ensures table == old(table) || Extends(old(table), table, |hooks|)
      ensures r.Ok? ==> Extends(old(table), table, |hooks|) && |r.value| == |hooks|
      ensures r.Ok? ==> forall j :: 0 <= j < |hooks| ==>
                table.rows[|old(table).rows| + j] == Stored(r.value[j].id, r.value[j].draft)
      ensures IdsUnique(old(table)) ==> IdsUnique(table)
    {
      RowsOfOutcome(hooks, drafts, table, driverFails);
      if |hooks| == 0 {
        r := Ok([]);
      } else {
        ghost var s := State();
        StartedInFlight(hooks, drafts, s);
        OutcomeDone(hooks, drafts, table, driverFails);
        var err := RunHooks(0, 0, bound[0]);
        RanWhole(hooks, drafts, driverFails, s, State(), err);
        hide Ran, BulkOutcome, Finished, Endings, Extends, IdsUnique;
        if err.Some? { return Err(err.value); }
        r := Ok(NodesOf(nodes));
      }
    }

    /** Hooks `k` and later of builder `i`, called with mutation `m`, then the mutator itself. */
    method RunHooks(i: nat, k: nat, m: nat) returns (err: Option<Error>)
      requires |hooks| == |drafts| && InFlight(hooks, drafts, State(), i, k, m)
      modifies this
      ensures Ran(hooks, drafts, driverFails, i, m, AfterError(hooks[i][k..]), old(State()), State(), err)
      decreases |hooks| - i, if i < |hooks| then |hooks[i]| - k + 1 else 0
    {
      ghost var s := State();
      hide Ran;
      if k == |hooks[i]| {
        assert hooks[i][k..] == [];
        err := Mutate(i, m);
        return;
      }
      assert hooks[i][k..][1..] == hooks[i][k + 1..];
      match hooks[i][k]
      case PassOn =>
        err := RunHooks(i, k + 1, m);
      case Change(f) =>
        mutations := mutations[m := mutations[m].(draft := f(mutations[m].draft))];
        ghost var s1 := State();
        StillInFlight(hooks, drafts, s, s1, i, k, m, m);
        err := RunHooks(i, k + 1, m);
        RanOnward(hooks, drafts, driverFails, i, m, m, AfterError(hooks[i][k + 1..]), s, s1, State(), err);
      case Replace(g) =>
        mutations := mutations + [Mutation(g(mutations[m].draft), None, false)];
        ghost var s1, m1 := State(), |mutations| - 1;
        StillInFlight(hooks, drafts, s, s1, i, k, m, m1);
        err := RunHooks(i, k + 1, |mutations| - 1);
        RanOnward(hooks, drafts, driverFails, i, m, m1, AfterError(hooks[i][k + 1..]), s, s1, State(), err);
      case FailBefore(e) =>
        RanRejected(hooks, drafts, driverFails, i, k, m, AfterError(hooks[i][k..]), s, e);
        err := Some(e);
      case FailAfter(e) =>
        err := RunHooks(i, k + 1, m);
        RanFailAfter(hooks, drafts, driverFails, i, m, AfterError(hooks[i][k + 1..]), e, s, State(), err);
        if err.None? { err := Some(e); }
    }

    /** The innermost mutator of builder `i`. */
    method Mutate(i: nat, m: nat) returns (err: Option<Error>)
      requires |hooks| == |drafts| && i < |hooks| && InFlight(hooks, drafts, State(), i, |hooks[i]|, m)
      modifies this
      ensures Ran(hooks, drafts, driverFails, i, m, None, old(State()), State(), err)
      decreases |hooks| - i, 0
    {
      ghost var s := State();
      hide Ran;
      var bad := Check(mutations[bound[i]].draft);
      if bad.Some? {
        RanRejected(hooks, drafts, driverFails, i, |hooks[i]|, m, None, s, bad.value);
        return bad;
      }
      bound := bound[i := m];
      var d := mutations[m].draft;
      nodes := nodes[i := Some(Node(0, d))];
      specs := specs[i := Some(Spec(d, None))];
      ghost var built := State();
      BuiltInFlight(hooks, drafts, s, i, m);
      if i < |hooks| - 1 {
        err := RunHooks(i + 1, 0, bound[i + 1]);
        if err.Some? {
          RanNextFails(hooks, drafts, driverFails, i, m, s, built, State(), err);
        } else {
          RanNextCompletes(hooks, drafts, driverFails, i, m, s, built, State(), err);
        }
      } else {
        err := BatchCreate();
        RanLast(hooks, drafts, driverFails, i, m, s, built, State(), err);
      }
      if err.Some? { return; }
      ghost var s' := State();
      mutations := mutations[m := mutations[m].(node := Some(i))];
      nodes := nodes[i := Some(nodes[i].value.(id := specs[i].value.id.value))];
      mutations := mutations[m := mutations[m].(done := true)];
      assert mutations == Completed(s', i, m).mutations;
    }

    /** `sqlgraph.BatchCreate`: all rows or none; the identifiers come back in the specs. */
    method BatchCreate() returns (err: Option<Error>)
      requires forall j :: 0 <= j < |specs| ==> specs[j].Some?
      modifies this`specs, this`table, this`writes
      ensures writes == old(writes) + 1 && |specs| == |old(specs)|
      ensures err == WriteError(old(table), DraftsOf(old(specs), |old(specs)|), driverFails)
      ensures err.Some? ==> table == old(table) && specs == old(specs)
      ensures err.None? ==> table == Written(old(table), DraftsOf(old(specs), |old(specs)|))
      ensures err.None? ==> forall j :: 0 <= j < |specs| ==>
                specs[j] == Some(Spec(old(specs)[j].value.draft, Some(old(table).nextId + j)))
      ensures err.None? ==> Extends(old(table), table, |specs|)
      ensures err.None? ==> forall j :: 0 <= j < |specs| ==>
                && specs[j].Some? && specs[j].value.id.Some?
                && table.rows[|old(table).rows| + j] == Stored(specs[j].value.id.value, specs[j].value.draft)
    {
      writes := writes + 1;
      var batch := DraftsOf(specs, |specs|);
      err := WriteError(table, batch, driverFails);
      if err.None? {
        var first := table.nextId;
        WrittenExtends(table, batch);
        table := Written(table, batch);
        for i := 0 to |specs|
          modifies this`specs
          invariant |specs| == |old(specs)|
          invariant forall j :: 0 <= j < i ==> specs[j] == Some(Spec(old(specs)[j].value.draft, Some(first + j)))
          invariant forall j :: i <= j < |specs| ==> specs[j] == old(specs)[j]
        {
          specs := specs[i := Some(specs[i].value.(id := Some(first + i)))];
        }
      }
    }
  }

  /** The drafts of the first `n` specs. */
  function DraftsOf(specs: seq<Option<Spec>>, n: nat): (r: seq<Draft>)
    requires n <= |specs| && forall j :: 0 <= j < n ==> specs[j].Some?
    ensures |r| == n
  {
    seq(n, j requires 0 <= j < n => specs[j].value.draft)
  }

  datatype Snapshot = Snapshot(mutations: seq<Mutation>, bound: seq<nat>, nodes: seq<Option<Node>>,
                               specs: seq<Option<Spec>>, table: Table, writes: nat)

  ghost predicate Sized(n: nat, s: Snapshot) {
    && n == |s.bound| == |s.nodes| == |s.specs| <= |s.mutations|
    && forall j :: 0 <= j < n ==> s.bound[j] < |s.mutations|
  }

  ghost predicate Fresh(drafts: seq<Draft>, s: Snapshot, j: nat)
    requires j < |drafts| && Sized(|drafts|, s)
  {
    s.bound[j] == j && s.mutations[j] == Mutation(drafts[j], None, false)
  }

  ghost predicate Started(drafts: seq<Draft>, s: Snapshot) {
    Sized(|drafts|, s) && forall j :: 0 <= j < |drafts| ==> Fresh(drafts, s, j)
  }

  /** Mutator `i` is running: hooks from `k` on are still to come, `m` is the mutation in flight.
      Later builders have not been touched, earlier ones have their specs. */
  ghost predicate InFlight(hooks: seq<seq<Hook>>, drafts: seq<Draft>, s: Snapshot, i: nat, k: nat, m: nat)
    requires |hooks| == |drafts|
  {
    && Sized(|drafts|, s) && i < |drafts| && k <= |hooks[i]| && m < |s.mutations|
    && s.bound[i] == i && (m == i || |drafts| <= m)
    && Undone(s.mutations[m]) && Undone(s.mutations[i])
    && Travel(hooks[i][k..], s.mutations[i].draft, s.mutations[m].draft, m != i)
       == Travel(hooks[i], drafts[i], drafts[i], false)
    && (forall j :: i < j < |drafts| ==> Fresh(drafts, s, j))
    && (forall j :: 0 <= j < i ==> s.specs[j].Some?)
  }

  /** Nothing that belongs to the builders before `i` was changed, except that identifiers may have
      arrived in their specs. */
  ghost predicate Framed(i: nat, m: nat, n: nat, s: Snapshot, s': Snapshot) {
    && |s.bound| == |s'.bound| == |s.nodes| == |s'.nodes| == |s.specs| == |s'.specs| == n
    && i <= n <= |s.mutations| <= |s'.mutations|
    && (forall j :: 0 <= j < n ==> s'.bound[j] < |s'.mutations|)
    && (forall j :: 0 <= j < i ==> s'.bound[j] == s.bound[j] && s'.nodes[j] == s.nodes[j])
    && (forall j :: i <= j < n ==> s'.bound[j] == m || i <= s'.bound[j] < n || |s.mutations| <= s'.bound[j])
    && (forall j :: 0 <= j < i ==> s.specs[j].Some? && s'.specs[j].Some?)
    && (forall j :: 0 <= j < i ==> s'.specs[j].value.draft == s.specs[j].value.draft)
    && (forall r :: 0 <= r < |s.mutations| && (r < i || n <= r) && r != m ==> s'.mutations[r] == s.mutations[r])
  }

  ghost predicate Undone(m: Mutation) {
    !m.done && m.node.None?
  }

  /** How the mutation of builder `j` stands; its identifier is read through the node it points at. */
  ghost function EndingOf(s: Snapshot, j: nat): Ending {
    if j < |s.bound| && s.bound[j] < |s.mutations| then
      var m := s.mutations[s.bound[j]];
      Ending(m.done,
             if m.node.Some? && m.node.value < |s.nodes| && s.nodes[m.node.value].Some?
             then Some(s.nodes[m.node.value].value.id) else None)
    else UNDONE
  }

  ghost function Endings(s: Snapshot): seq<Ending> {
    seq(|s.bound|, j requires 0 <= j < |s.bound| => EndingOf(s, j))
  }

  /** Builder `j` is finished: its mutation is done and its identifier is that of its node, which is
      the one the database gave out. */
  ghost predicate Finished(s: Snapshot, j: nat, d: Draft, id: int) {
    && j < |s.bound| && s.bound[j] < |s.mutations| && j < |s.nodes|
    && s.mutations[s.bound[j]] == Mutation(d, Some(j), true)
    && s.nodes[j] == Some(Node(id, d))
  }

  ghost predicate Unfinished(s: Snapshot, j: nat) {
    j < |s.bound| && s.bound[j] < |s.mutations| && Undone(s.mutations[s.bound[j]])
  }

  /** After the write builder `j` is finished exactly if no later hook failed. */
  ghost predicate Ended(hooks: seq<seq<Hook>>, s: Snapshot, j: nat, d: Draft, id: int)
    requires j < |hooks|
  {
    if BackTo(hooks, j + 1).None? then Finished(s, j, d, id) else Unfinished(s, j)
  }

  /** What running the mutators from `i` on amounts to. `after` is the error of the hooks of builder
      `i` that are still to act afterwards. */
  ghost predicate Ran(hooks: seq<seq<Hook>>, drafts: seq<Draft>, driverFails: bool, i: nat, m: nat,
                      after: Option<Error>, s: Snapshot, s': Snapshot, err: Option<Error>)
    requires |hooks| == |drafts| && i < |hooks|
  {
    && Framed(i, m, |hooks|, s, s')
    && match AdmitFrom(hooks, drafts, i)
       case Err(e) => err == Some(e) && Untouched(i, s, s') && s'.writes == s.writes
       case Ok(rest) => Tried(hooks, driverFails, i, after, DraftsOf(s.specs, i) + rest, s, s', err)
  }

  /** The batch was sent to the database. */
  ghost predicate Tried(hooks: seq<seq<Hook>>, driverFails: bool, i: nat, after: Option<Error>, batch: seq<Draft>,
                        s: Snapshot, s': Snapshot, err: Option<Error>)
    requires i < |hooks| == |batch| == |s'.specs|
  {
    && s'.writes == s.writes + 1
    && if WriteError(s.table, batch, driverFails).Some? then
         err == WriteError(s.table, batch, driverFails) && Untouched(i, s, s')
       else
         && s'.table == Written(s.table, batch)
         && err == (if BackTo(hooks, i + 1).Some? then BackTo(hooks, i + 1) else after)
         && (forall j :: 0 <= j < |hooks| ==> s'.specs[j] == Some(Spec(batch[j], Some(s.table.nextId + j))))
         && (forall j :: i <= j < |hooks| ==> Ended(hooks, s', j, batch[j], s.table.nextId + j))
  }

  ghost predicate Untouched(i: nat, s: Snapshot, s': Snapshot) {
    && s'.table == s.table
    && forall j :: i <= j < |s'.bound| ==> Unfinished(s', j)
  }

  // ----- Steps of the chain -----

  lemma RanOnward(hooks: seq<seq<Hook>>, drafts: seq<Draft>, driverFails: bool, i: nat, m: nat, m1: nat,
                  after: Option<Error>, s: Snapshot, s1: Snapshot, s': Snapshot, err: Option<Error>)
    requires |hooks| == |drafts| && i < |hooks| <= |s.mutations| <= |s1.mutations|
    requires s1 == s.(mutations := s1.mutations) && (m1 == m || |s.mutations| <= m1)
    requires forall r :: 0 <= r < |s.mutations| && r != m ==> s1.mutations[r] == s.mutations[r]
    requires Ran(hooks, drafts, driverFails, i, m1, after, s1, s', err)
    ensures Ran(hooks, drafts, driverFails, i, m, after, s, s', err)
  {
    hide AdmitFrom, WriteError, BackTo, Written;
  }

  lemma RanFailAfter(hooks: seq<seq<Hook>>, drafts: seq<Draft>, driverFails: bool, i: nat, m: nat,
                     inner: Option<Error>, e: Error, s: Snapshot, s': Snapshot, err: Option<Error>)
    requires |hooks| == |drafts| && i < |hooks|
    requires Ran(hooks, drafts, driverFails, i, m, inner, s, s', err)
    ensures Ran(hooks, drafts, driverFails, i, m, if inner.Some? then inner else Some(e), s, s',
                if err.None? then Some(e) else err)
  {
    hide AdmitFrom, BackTo, Written, Framed;
  }

  /** A hook that fails before, or a failed check, stops the chain with nothing written. */
  lemma RanRejected(hooks: seq<seq<Hook>>, drafts: seq<Draft>, driverFails: bool, i: nat, k: nat, m: nat,
                    after: Option<Error>, s: Snapshot, e: Error)
    requires |hooks| == |drafts| && InFlight(hooks, drafts, s, i, k, m)
    requires if k < |hooks[i]| then hooks[i][k] == FailBefore(e) else Check(s.mutations[i].draft) == Some(e)
    ensures Ran(hooks, drafts, driverFails, i, m, after, s, s, Some(e))
  {
    hide Check;
    assert Admit(hooks[i], drafts[i]) == Err(e);
    forall j | i <= j < |drafts| ensures Unfinished(s, j) && s.bound[j] == j {
      if i < j { assert Fresh(drafts, s, j); }
    }
  }

  /** The hooks that change or replace the mutation keep the chain in flight. */
  lemma StillInFlight(hooks: seq<seq<Hook>>, drafts: seq<Draft>, s: Snapshot, s1: Snapshot,
                      i: nat, k: nat, m: nat, m1: nat)
    requires |hooks| == |drafts| && InFlight(hooks, drafts, s, i, k, m) && k < |hooks[i]|
    requires s1 == s.(mutations := s1.mutations)
    requires match hooks[i][k]
             case Change(f) =>
               s1.mutations == s.mutations[m := s.mutations[m].(draft := f(s.mutations[m].draft))] && m1 == m
             case Replace(g) =>
               s1.mutations == s.mutations + [Mutation(g(s.mutations[m].draft), None, false)] && m1 == |s.mutations|
             case _ => false
    ensures InFlight(hooks, drafts, s1, i, k + 1, m1)
  {
    assert hooks[i][k..][1..] == hooks[i][k + 1..];
    forall j | i < j < |drafts| ensures Fresh(drafts, s1, j) { assert Fresh(drafts, s, j); }
  }

  ghost function Built(s: Snapshot, i: nat, m: nat): Snapshot
    requires i < |s.bound| && i < |s.nodes| && i < |s.specs| && m < |s.mutations|
  {
    var d := s.mutations[m].draft;
    s.(bound := s.bound[i := m], nodes := s.nodes[i := Some(Node(0, d))], specs := s.specs[i := Some(Spec(d, None))])
  }

  ghost function Completed(s: Snapshot, i: nat, m: nat): Snapshot
    requires CanComplete(s, i, m)
  {
    s.(mutations := s.mutations[m := s.mutations[m].(node := Some(i), done := true)],
       nodes := s.nodes[i := Some(s.nodes[i].value.(id := s.specs[i].value.id.value))])
  }

  lemma BuiltInFlight(hooks: seq<seq<Hook>>, drafts: seq<Draft>, s: Snapshot, i: nat, m: nat)
    requires |hooks| == |drafts| && i < |hooks| && InFlight(hooks, drafts, s, i, |hooks[i]|, m)
    ensures i + 1 < |hooks| ==> InFlight(hooks, drafts, Built(s, i, m), i + 1, 0, i + 1)
    ensures forall j :: 0 <= j <= i ==> Built(s, i, m).specs[j].Some?
  {
    if i + 1 < |hooks| {
      assert Fresh(drafts, s, i + 1);
      assert hooks[i + 1][0..] == hooks[i + 1];
      forall j | i + 1 < j < |drafts| ensures Fresh(drafts, Built(s, i, m), j) { assert Fresh(drafts, s, j); }
    }
  }

  /** A builder that passes its check adds what it sends on to the batch. */
  lemma AdmitStep(hooks: seq<seq<Hook>>, drafts: seq<Draft>, s: Snapshot, i: nat, m: nat)
    requires |hooks| == |drafts| && i < |hooks| && InFlight(hooks, drafts, s, i, |hooks[i]|, m)
    requires Check(s.mutations[i].draft).None?
    ensures var later, all := AdmitFrom(hooks, drafts, i + 1), AdmitFrom(hooks, drafts, i);
      if later.Err? then all == Err(later.error)
      else
        && all.Ok? && all.value[0] == s.mutations[m].draft
        && (forall j :: 0 <= j <= i ==> Built(s, i, m).specs[j].Some?)
        && DraftsOf(s.specs, i) + all.value == DraftsOf(Built(s, i, m).specs, i + 1) + later.value
  {
    hide Check;
    assert hooks[i][|hooks[i]|..] == [];
    assert Admit(hooks[i], drafts[i]) == Ok(s.mutations[m].draft);
    var later := AdmitFrom(hooks, drafts, i + 1);
    if later.Ok? {
      var d := s.mutations[m].draft;
      assert DraftsOf(Built(s, i, m).specs, i + 1) == DraftsOf(s.specs, i) + [d];
      assert DraftsOf(s.specs, i) + [d] + later.value == DraftsOf(s.specs, i) + ([d] + later.value);
    }
  }

  lemma BackToStep(hooks: seq<seq<Hook>>, i: nat)
    requires i < |hooks|
    ensures BackTo(hooks, i + 1).Some? ==> BackTo(hooks, i) == BackTo(hooks, i + 1)
    ensures BackTo(hooks, i + 1).None? ==> BackTo(hooks, i) == AfterError(hooks[i])
  {
  }

  /** The later mutators leave builder `i` alone. */
  lemma FramedStep(hooks: seq<seq<Hook>>, drafts: seq<Draft>, i: nat, m: nat, s: Snapshot, s': Snapshot)
    requires |hooks| == |drafts| && i + 1 < |hooks| && InFlight(hooks, drafts, s, i, |hooks[i]|, m)
    requires Framed(i + 1, i + 1, |hooks|, Built(s, i, m), s')
    ensures Framed(i, m, |hooks|, s, s')
    ensures m < |s'.mutations| && i < |s'.bound|
    ensures s'.mutations[m] == s.mutations[m] && s'.bound[i] == m && s'.nodes[i] == Built(s, i, m).nodes[i]
    ensures forall j :: i < j < |hooks| ==> s'.bound[j] != m
  {
    hide Travel;
  }

  lemma FramedCompleted(n: nat, i: nat, m: nat, s: Snapshot, s': Snapshot)
    requires Framed(i, m, n, s, s') && CanComplete(s', i, m)
    ensures Framed(i, m, n, s, Completed(s', i, m))
  {
  }

  /** The mutator of a builder that is not the last, around the mutators of the later ones. */
  lemma RanNextFails(hooks: seq<seq<Hook>>, drafts: seq<Draft>, driverFails: bool, i: nat, m: nat,
                     s: Snapshot, built: Snapshot, s': Snapshot, err: Option<Error>)
    requires |hooks| == |drafts| && i + 1 < |hooks| && InFlight(hooks, drafts, s, i, |hooks[i]|, m)
    requires Check(s.mutations[i].draft).None? && built == Built(s, i, m)
    requires Ran(hooks, drafts, driverFails, i + 1, i + 1, AfterError(hooks[i + 1][0..]), built, s', err)
    requires err.Some?
    ensures Ran(hooks, drafts, driverFails, i, m, None, s, s', err)
  {
    hide AdmitFrom, BackTo, Travel, WriteError, Written, Check, AfterError, Framed;
    AdmitStep(hooks, drafts, s, i, m);
    assert hooks[i + 1][0..] == hooks[i + 1];
    BackToStep(hooks, i + 1);
    FramedStep(hooks, drafts, i, m, s, s');
    hide DraftsOf;
    assert Unfinished(s', i);
    hide InFlight, Finished, Unfinished;
  }

  lemma RanNextCompletes(hooks: seq<seq<Hook>>, drafts: seq<Draft>, driverFails: bool, i: nat, m: nat,
                         s: Snapshot, built: Snapshot, s': Snapshot, err: Option<Error>)
    requires |hooks| == |drafts| && i + 1 < |hooks| && InFlight(hooks, drafts, s, i, |hooks[i]|, m)
    requires Check(s.mutations[i].draft).None? && built == Built(s, i, m)
    requires Ran(hooks, drafts, driverFails, i + 1, i + 1, AfterError(hooks[i + 1][0..]), built, s', err)
    requires err.None?
    ensures CanComplete(s', i, m) && Ran(hooks, drafts, driverFails, i, m, None, s, Completed(s', i, m), None)
  {
    AdmitStep(hooks, drafts, s, i, m);
    assert hooks[i + 1][0..] == hooks[i + 1];
    BackToStep(hooks, i + 1);
    FramedStep(hooks, drafts, i, m, s, s');
    hide AdmitFrom, BackTo, Travel, DraftsOf, WriteError, Written, Check, AfterError;
    assert CanComplete(s', i, m);
    FramedCompleted(|hooks|, i, m, s, s');
    hide Framed;
    var batch := DraftsOf(s.specs, i) + AdmitFrom(hooks, drafts, i).value;
    assert batch[i] == s.mutations[m].draft;
    CompletedTried(hooks, driverFails, i, m, AfterError(hooks[i + 1][0..]), batch, s, built, s');
  }

  lemma CompletedTried(hooks: seq<seq<Hook>>, driverFails: bool, i: nat, m: nat, after: Option<Error>,
                       batch: seq<Draft>, s: Snapshot, built: Snapshot, s': Snapshot)
    requires i + 1 < |hooks| == |batch| == |s'.specs| == |s'.bound| && CanComplete(s', i, m)
    requires built.table == s.table && built.writes == s.writes
    requires Tried(hooks, driverFails, i + 1, after, batch, built, s', None)
    requires BackTo(hooks, i + 1).None?
    requires s'.bound[i] == m && s'.mutations[m] == Mutation(batch[i], None, false)
    requires s'.nodes[i].value.draft == batch[i]
    requires forall j :: i < j < |hooks| ==> s'.bound[j] != m
    ensures Tried(hooks, driverFails, i, None, batch, s, Completed(s', i, m), None)
  {
    hide BackTo, WriteError, Written;
    var c := Completed(s', i, m);
    assert Finished(c, i, batch[i], s.table.nextId + i);
    hide Finished, Unfinished;
    forall j | i < j < |hooks|
      ensures Ended(hooks, c, j, batch[j], s.table.nextId + j)
    {
      assert Ended(hooks, s', j, batch[j], s.table.nextId + j);
      OthersKept(s', i, m, j, batch[j], s.table.nextId + j);
    }
  }

  lemma OthersKept(s: Snapshot, i: nat, m: nat, j: nat, d: Draft, id: int)
    requires CanComplete(s, i, m) && i < j < |s.bound| && s.bound[j] != m
    ensures Finished(s, j, d, id) ==> Finished(Completed(s, i, m), j, d, id)
    ensures Unfinished(s, j) ==> Unfinished(Completed(s, i, m), j)
  {
  }

  ghost predicate CanComplete(s: Snapshot, i: nat, m: nat) {
    && i < |s.nodes| && s.nodes[i].Some? && m < |s.mutations|
    && i < |s.specs| && s.specs[i].Some? && s.specs[i].value.id.Some?
  }

  lemma RanLast(hooks: seq<seq<Hook>>, drafts: seq<Draft>, driverFails: bool, i: nat, m: nat,
                s: Snapshot, built: Snapshot, s': Snapshot, err: Option<Error>)
    requires |hooks| == |drafts| && i + 1 == |hooks| && InFlight(hooks, drafts, s, i, |hooks[i]|, m)
    requires Check(s.mutations[i].draft).None? && built == Built(s, i, m)
    requires forall j :: 0 <= j < |built.specs| ==> built.specs[j].Some?
    requires s' == built.(specs := s'.specs, table := s'.table, writes := built.writes + 1)
    requires |s'.specs| == |built.specs|
    requires err == WriteError(s.table, DraftsOf(built.specs, |built.specs|), driverFails)
    requires err.Some? ==> s'.table == s.table && s'.specs == built.specs
    requires err.None? ==> s'.table == Written(s.table, DraftsOf(built.specs, |built.specs|))
    requires err.None? ==> forall j :: 0 <= j < |s'.specs| ==>
               s'.specs[j] == Some(Spec(built.specs[j].value.draft, Some(s.table.nextId + j)))
    ensures err.Some? ==> Ran(hooks, drafts, driverFails, i, m, None, s, s', err)
    ensures err.None? ==>
              && CanComplete(s', i, m)
              && Ran(hooks, drafts, driverFails, i, m, None, s, Completed(s', i, m), None)
  {
    AdmitStep(hooks, drafts, s, i, m);
    assert AdmitFrom(hooks, drafts, i + 1) == Ok([]) && BackTo(hooks, i + 1) == None;
    assert DraftsOf(built.specs, i + 1) + [] == DraftsOf(built.specs, i + 1);
    hide AdmitFrom, BackTo, Travel, WriteError, Written, Check, AfterError;
    if err.Some? {
      assert Framed(i, m, |hooks|, s, s');
    } else {
      assert Framed(i, m, |hooks|, s, Completed(s', i, m));
    }
  }

  /** The nodes, once all of them exist. */
  function NodesOf(nodes: seq<Option<Node>>): seq<Node>
    requires forall j :: 0 <= j < |nodes| ==> nodes[j].Some?
  {
    seq(|nodes|, j requires 0 <= j < |nodes| => nodes[j].value)
  }

  /** The run of the first mutator, read as the outcome of the whole save. */
  lemma RanWhole(hooks: seq<seq<Hook>>, drafts: seq<Draft>, driverFails: bool,
                 s: Snapshot, s': Snapshot, err: Option<Error>)
    requires |hooks| == |drafts| > 0
    requires Ran(hooks, drafts, driverFails, 0, 0, AfterError(hooks[0][0..]), s, s', err)
    ensures s'.writes == s.writes + if AdmitFrom(hooks, drafts, 0).Ok? then 1 else 0
    ensures err.Some? ==>
              BulkOutcome(hooks, drafts, s.table, driverFails) == Outcome(s'.table, Err(err.value), Endings(s'))
    ensures err.None? ==>
              && |s'.nodes| == |hooks| && (forall j :: 0 <= j < |s'.nodes| ==> s'.nodes[j].Some?)
              && BulkOutcome(hooks, drafts, s.table, driverFails)
                 == Outcome(s'.table, Ok(NodesOf(s'.nodes)), Endings(s'))
              && (forall j :: 0 <= j < |hooks| ==> Finished(s', j, s'.nodes[j].value.draft, s'.nodes[j].value.id))
  {
    BackToStep(hooks, 0);
    assert hooks[0][0..] == hooks[0];
    NoSpecsYet(s.specs);
    assert |s'.nodes| == |hooks| == |s'.bound|;
    EndingsRead(hooks, drafts, driverFails, s, s', err);
    hide Framed, WriteError, AdmitFrom, BackTo, Written, AfterError, Unfinished;
    var admitted := AdmitFrom(hooks, drafts, 0);
    if admitted.Ok? {
      var batch := admitted.value;
      assert DraftsOf(s.specs, 0) + batch == batch;
      if err.None? { AllFinished(hooks, driverFails, AfterError(hooks[0][0..]), batch, s, s'); }
    }
  }

  lemma EndingsRead(hooks: seq<seq<Hook>>, drafts: seq<Draft>, driverFails: bool,
                    s: Snapshot, s': Snapshot, err: Option<Error>)
    requires |hooks| == |drafts| > 0
    requires Ran(hooks, drafts, driverFails, 0, 0, AfterError(hooks[0][0..]), s, s', err)
    ensures Endings(s') == BulkOutcome(hooks, drafts, s.table, driverFails).endings
  {
    hide Ran, AdmitFrom, BackTo, WriteError, Written, AfterError, Endings, EndingsAfterWrite, Ended, Unfinished;
    hide NewNodes;
    RanEndings(hooks, drafts, driverFails, s, s', err);
    var admitted := AdmitFrom(hooks, drafts, 0);
    if admitted.Ok? && WriteError(s.table, admitted.value, driverFails).None? {
      EndingsWritten(hooks, admitted.value, s', s.table.nextId);
    } else {
      NothingEnds(s');
    }
  }

  /** What the run of the first mutator says about the builders, all of them. */
  lemma RanEndings(hooks: seq<seq<Hook>>, drafts: seq<Draft>, driverFails: bool,
                   s: Snapshot, s': Snapshot, err: Option<Error>)
    requires |hooks| == |drafts| > 0
    requires Ran(hooks, drafts, driverFails, 0, 0, AfterError(hooks[0][0..]), s, s', err)
    ensures |s'.bound| == |hooks|
    ensures var admitted := AdmitFrom(hooks, drafts, 0);
      if admitted.Ok? && WriteError(s.table, admitted.value, driverFails).None? then
        forall j :: 0 <= j < |hooks| ==> Ended(hooks, s', j, admitted.value[j], s.table.nextId + j)
      else forall j :: 0 <= j < |hooks| ==> Unfinished(s', j)
  {
    hide Ran, AdmitFrom, Ended, WriteError, Written, AfterError, Unfinished;
    RanTried(hooks, drafts, driverFails, s, s', err);
  }

  lemma RanTried(hooks: seq<seq<Hook>>, drafts: seq<Draft>, driverFails: bool,
                 s: Snapshot, s': Snapshot, err: Option<Error>)
    requires |hooks| == |drafts| > 0
    requires Ran(hooks, drafts, driverFails, 0, 0, AfterError(hooks[0][0..]), s, s', err)
    ensures |hooks| == |s'.bound| == |s'.specs|
    ensures var admitted := AdmitFrom(hooks, drafts, 0);
      if admitted.Ok? then Tried(hooks, driverFails, 0, AfterError(hooks[0][0..]), admitted.value, s, s', err)
      else Untouched(0, s, s')
  {
    NoSpecsYet(s.specs);
    hide AdmitFrom, Tried, Untouched, AfterError, DraftsOf;
    var admitted := AdmitFrom(hooks, drafts, 0);
    if admitted.Ok? { assert [] + admitted.value == admitted.value; }
  }

  lemma EndingsWritten(hooks: seq<seq<Hook>>, batch: seq<Draft>, s: Snapshot, nextId: int)
    requires |hooks| == |batch| == |s.bound|
    requires forall j :: 0 <= j < |hooks| ==> Ended(hooks, s, j, batch[j], nextId + j)
    ensures Endings(s) == EndingsAfterWrite(hooks, nextId)
  {
    hide BackTo, Finished, Unfinished, EndingOf;
    forall j | 0 <= j < |hooks| ensures EndingOf(s, j) == EndingsAfterWrite(hooks, nextId)[j] {
      assert Ended(hooks, s, j, batch[j], nextId + j);
      EndingKnown(s, j, batch[j], nextId + j);
    }
  }

  lemma NothingEnds(s: Snapshot)
    requires forall j :: 0 <= j < |s.bound| ==> Unfinished(s, j)
    ensures Endings(s) == seq(|s.bound|, _ => UNDONE)
  {
    forall j | 0 <= j < |s.bound| ensures EndingOf(s, j) == UNDONE {
      assert Unfinished(s, j);
    }
  }

  lemma EndingKnown(s: Snapshot, j: nat, d: Draft, id: int)
    ensures Finished(s, j, d, id) ==> EndingOf(s, j) == Ending(true, Some(id)) && !Unfinished(s, j)
    ensures Unfinished(s, j) ==> EndingOf(s, j) == UNDONE
  {
  }

  /** Done flags read off the outcome: a done mutation takes a written batch. */
  lemma OutcomeDone(hooks: seq<seq<Hook>>, drafts: seq<Draft>, t: Table, driverFails: bool)
    requires |hooks| == |drafts|
    ensures var o := BulkOutcome(hooks, drafts, t, driverFails);
      && |o.endings| == |hooks|
      && forall j :: 0 <= j < |hooks| ==> (o.endings[j].done <==> o.table != t && BackTo(hooks, j + 1).None?)
  {
    hide AdmitFrom, BackTo, WriteError, AfterError;
    if AdmitFrom(hooks, drafts, 0).Ok? && |hooks| > 0 {
      assert Written(t, AdmitFrom(hooks, drafts, 0).value).nextId != t.nextId;
    }
  }

  lemma AllFinished(hooks: seq<seq<Hook>>, driverFails: bool, after: Option<Error>, batch: seq<Draft>,
                    s: Snapshot, s': Snapshot)
    requires 0 < |hooks| == |batch| == |s'.specs| == |s'.nodes| && BackTo(hooks, 0).None?
    requires Tried(hooks, driverFails, 0, after, batch, s, s', None)
    ensures forall j :: 0 <= j < |hooks| ==> s'.nodes[j] == Some(Node(s.table.nextId + j, batch[j]))
    ensures NodesOf(s'.nodes) == NewNodes(s.table.nextId, batch)
    ensures forall j :: 0 <= j < |hooks| ==> Finished(s', j, s'.nodes[j].value.draft, s'.nodes[j].value.id)
  {
    NothingBack(hooks, 0);
    hide BackTo, WriteError, Written;
    forall j | 0 <= j < |hooks|
      ensures Finished(s', j, batch[j], s.table.nextId + j)
      ensures s'.nodes[j] == Some(Node(s.table.nextId + j, batch[j]))
    {
      assert BackTo(hooks, j + 1).None?;
    }
    SameNodes(s'.nodes, s.table.nextId, batch);
  }

  lemma SameNodes(nodes: seq<Option<Node>>, nextId: int, batch: seq<Draft>)
    requires |nodes| == |batch|
    requires forall j :: 0 <= j < |nodes| ==> nodes[j] == Some(Node(nextId + j, batch[j]))
    ensures forall j :: 0 <= j < |nodes| ==> nodes[j].Some?
    ensures NodesOf(nodes) == NewNodes(nextId, batch)
  {
  }

  lemma NoSpecsYet(specs: seq<Option<Spec>>)
    ensures DraftsOf(specs, 0) == []
  {
  }

  lemma StartedInFlight(hooks: seq<seq<Hook>>, drafts: seq<Draft>, s: Snapshot)
    requires |hooks| == |drafts| > 0 && Started(drafts, s)
    ensures s.bound[0] == 0 && InFlight(hooks, drafts, s, 0, 0, 0)
  {
    assert Fresh(drafts, s, 0);
    assert hooks[0][0..] == hooks[0];
  }

  lemma {:induction false} NothingBack(hooks: seq<seq<Hook>>, i: nat)
    requires i <= |hooks| && BackTo(hooks, i).None?
    ensures forall j :: i <= j <= |hooks| ==> BackTo(hooks, j).None?
    decreases |hooks| - i
  {
    if i < |hooks| { NothingBack(hooks, i + 1); }
  }

  // ----- What ends up in the table -----

  ghost predicate NeverReplaces(hooks: seq<Hook>) {
    forall k :: 0 <= k < |hooks| ==> !hooks[k].Replace?
  }

  /** Without a replacing hook, the mutation that is checked is the one that is written. */
  lemma {:induction false} SameMutation(hooks: seq<Hook>, d: Draft)
    requires NeverReplaces(hooks)
    ensures Travel(hooks, d, d, false).Reaches? ==>
              Travel(hooks, d, d, false).own == Travel(hooks, d, d, false).sent
  {
    if hooks != [] {
      assert !hooks[0].Replace?;
      match hooks[0]
      case PassOn => SameMutation(hooks[1..], d);
      case FailAfter(_) => SameMutation(hooks[1..], d);
      case Change(f) => SameMutation(hooks[1..], f(d));
      case FailBefore(_) =>
    }
  }

  /** For any number of builders whose hooks do not replace the mutation, every row of the batch
      passed the checks. */
  lemma {:induction false} BatchIsChecked(hooks: seq<seq<Hook>>, drafts: seq<Draft>, i: nat)
    requires |hooks| == |drafts| && i <= |drafts| && forall j :: 0 <= j < |hooks| ==> NeverReplaces(hooks[j])
    requires AdmitFrom(hooks, drafts, i).Ok?
    ensures forall j :: 0 <= j < |drafts| - i ==> Check(AdmitFrom(hooks, drafts, i).value[j]).None?
    decreases |drafts| - i
  {
    hide Check;
    if i < |drafts| {
      BatchIsChecked(hooks, drafts, i + 1);
      SameMutation(hooks[i], drafts[i]);
    }
  }

  const SOUND := Draft(Some(0), Some(0), Some("ABC"), Some("A Bank"), Some(BANK), None)
  const UNSOUND := SOUND.(kind := Some("shop"))

  function Unsound(d: Draft): Draft { UNSOUND }

  /** With a replacing hook a row that fails the checks is written. */
  lemma ReplacementEscapesCheck(t: Table)
    requires forall k :: 0 <= k < |t.rows| ==> t.rows[k].draft.code != SOUND.code
    ensures Check(SOUND).None? && Check(UNSOUND) == Some(BadType)
    ensures BulkOutcome([[Replace(Unsound)]], [SOUND], t, false)
         == Outcome(Written(t, [UNSOUND]), Ok([Node(t.nextId, UNSOUND)]), [Ending(true, Some(t.nextId))])
  {
    var hooks := [Replace(Unsound)];
    assert hooks[1..] == [];
    assert Travel([], SOUND, UNSOUND, true) == Reaches(SOUND, UNSOUND);
    assert Travel(hooks, SOUND, SOUND, false) == Reaches(SOUND, UNSOUND);
    assert Admit(hooks, SOUND) == Ok(UNSOUND);
    assert AdmitFrom([hooks], [SOUND], 1) == Ok([]);
    assert [UNSOUND] + [] == [UNSOUND];
    assert AdmitFrom([hooks], [SOUND], 0) == Ok([UNSOUND]);
    BackToStep([hooks], 0);
    assert AfterError(hooks) == None;
    assert NewNodes(t.nextId, [UNSOUND]) == [Node(t.nextId, UNSOUND)];
  }

  // ----- Which kinds of hooks keep the checks -----

  ghost predicate SameKind(a: Hook, b: Hook) {
    && a.PassOn? == b.PassOn? && a.Change? == b.Change? && a.Replace? == b.Replace?
    && a.FailBefore? == b.FailBefore? && a.FailAfter? == b.FailAfter?
  }

  /** The hooks are of the same kinds, whatever they do within their kind. */
  ghost predicate SameKinds(a: seq<Hook>, b: seq<Hook>) {
    |a| == |b| && forall k :: 0 <= k < |a| ==> SameKind(a[k], b[k])
  }

  ghost predicate SameKindsEach(a: seq<seq<Hook>>, b: seq<seq<Hook>>) {
    |a| == |b| && forall j :: 0 <= j < |a| ==> SameKinds(a[j], b[j])
  }

  ghost predicate Blocks(hooks: seq<Hook>) {
    exists k :: 0 <= k < |hooks| && hooks[k].FailBefore?
  }

  lemma {:induction false} BlockedTrip(hooks: seq<Hook>, own: Draft, sent: Draft, replaced: bool)
    ensures Travel(hooks, own, sent, replaced).Blocked? <==> Blocks(hooks)
  {
    if hooks != [] {
      TailKinds(hooks);
      match hooks[0]
      case PassOn => BlockedTrip(hooks[1..], own, sent, replaced);
      case FailAfter(_) => BlockedTrip(hooks[1..], own, sent, replaced);
      case Change(f) => BlockedTrip(hooks[1..], if replaced then own else f(sent), f(sent), replaced);
      case Replace(g) => BlockedTrip(hooks[1..], own, g(sent), true);
      case FailBefore(_) =>
    }
  }

  lemma TailKinds(hooks: seq<Hook>)
    requires hooks != []
    ensures Blocks(hooks) <==> hooks[0].FailBefore? || Blocks(hooks[1..])
    ensures NeverReplaces(hooks) <==> !hooks[0].Replace? && NeverReplaces(hooks[1..])
  {
    var rest := hooks[1..];
    assert forall k :: 0 <= k < |rest| ==> rest[k] == hooks[k + 1];
    assert forall k :: 1 <= k < |hooks| ==> hooks[k] == rest[k - 1];
  }

  function Same(d: Draft): Draft { d }

  function Spoil(d: Draft): Draft { d.(kind := Some("shop")) }

  /** Hooks of the same kinds that do nothing, except that the replacing ones pass on `g` of the draft. */
  function Idle(hooks: seq<Hook>, g: Draft -> Draft): (r: seq<Hook>)
    ensures SameKinds(hooks, r)
  {
    if hooks == [] then []
    else
      var h := if hooks[0].Change? then Change(Same) else if hooks[0].Replace? then Replace(g) else hooks[0];
      [h] + Idle(hooks[1..], g)
  }

  /** Replacing twice is replacing once. */
  ghost predicate Settles(g: Draft -> Draft, d: Draft) {
    g(g(d)) == g(d)
  }

  lemma {:induction false} IdleTrip(hooks: seq<Hook>, g: Draft -> Draft, d: Draft, replaced: bool)
    requires !Blocks(hooks) && Settles(g, d)
    ensures Travel(Idle(hooks, g), d, if replaced then g(d) else d, replaced)
         == Reaches(d, if replaced || !NeverReplaces(hooks) then g(d) else d)
  {
    if hooks != [] {
      TailKinds(hooks);
      assert Idle(hooks, g)[1..] == Idle(hooks[1..], g);
      IdleTrip(hooks[1..], g, d, replaced || hooks[0].Replace?);
    }
  }

  /** Every row that the save added passed the checks. */
  ghost predicate AddsCheckedRows(t: Table, t': Table) {
    forall k :: |t.rows| <= k < |t'.rows| ==> Check(t'.rows[k].draft).None?
  }

  /** No builder replaces its mutation, or some hook stops the whole batch. */
  ghost predicate KeepsChecks(hooks: seq<seq<Hook>>) {
    (forall j :: 0 <= j < |hooks| ==> NeverReplaces(hooks[j])) || exists j :: 0 <= j < |hooks| && Blocks(hooks[j])
  }

  /** Whether all rows a bulk save can ever write pass the checks depends on the kinds of its hooks
      alone: they do for all hooks of these kinds, all drafts and all tables, if and only if no hook
      replaces the mutation or some hook fails before calling the next one. */
  lemma RowsCheckedByKind(hooks: seq<seq<Hook>>)
    ensures (forall h: seq<seq<Hook>>, drafts: seq<Draft>, t: Table, fails: bool ::
               SameKindsEach(hooks, h) && |drafts| == |h| ==>
                 AddsCheckedRows(t, BulkOutcome(h, drafts, t, fails).table))
        <==> KeepsChecks(hooks)
  {
    if KeepsChecks(hooks) {
      forall h: seq<seq<Hook>>, drafts: seq<Draft>, t: Table, fails: bool | SameKindsEach(hooks, h) && |drafts| == |h|
        ensures AddsCheckedRows(t, BulkOutcome(h, drafts, t, fails).table)
      {
        CheckedRows(hooks, h, drafts, t, fails);
      }
    } else {
      var h := IdleEach(hooks, Spoil);
      var drafts := Numbered(|hooks|);
      assert SameKindsEach(hooks, h);
      SpoiledRow(hooks);
      assert !AddsCheckedRows(Table([], 0), BulkOutcome(h, drafts, Table([], 0), false).table);
    }
  }

  lemma KindsTransfer(a: seq<Hook>, b: seq<Hook>)
    requires SameKinds(a, b)
    ensures NeverReplaces(a) <==> NeverReplaces(b)
    ensures Blocks(a) <==> Blocks(b)
    ensures NeverFailsAfter(a) <==> NeverFailsAfter(b)
  {
    assert forall k :: 0 <= k < |a| ==> SameKind(a[k], b[k]);
  }

  lemma CheckedRows(hooks: seq<seq<Hook>>, h: seq<seq<Hook>>, drafts: seq<Draft>, t: Table, fails: bool)
    requires KeepsChecks(hooks) && SameKindsEach(hooks, h) && |drafts| == |h|
    ensures AddsCheckedRows(t, BulkOutcome(h, drafts, t, fails).table)
  {
    forall j | 0 <= j < |hooks|
      ensures NeverReplaces(hooks[j]) == NeverReplaces(h[j]) && Blocks(hooks[j]) == Blocks(h[j])
    {
      KindsTransfer(hooks[j], h[j]);
    }
    FirstFailureDecides(h, drafts, 0);
    if j :| 0 <= j < |hooks| && Blocks(hooks[j]) {
      BlockedTrip(h[j], drafts[j], drafts[j], false);
      assert Admit(h[j], drafts[j]).Err?;
    } else if AdmitFrom(h, drafts, 0).Ok? {
      BatchIsChecked(h, drafts, 0);
    }
    hide AdmitFrom, Admit, NeverReplaces, Blocks, Check, WriteError, BackTo;
  }

  function IdleEach(hooks: seq<seq<Hook>>, g: Draft -> Draft): seq<seq<Hook>> {
    seq(|hooks|, j requires 0 <= j < |hooks| => Idle(hooks[j], g))
  }

  /** Sound drafts with different codes. */
  function Numbered(n: nat): seq<Draft> {
    seq(n, j requires 0 <= j => SOUND.(code := Some(Numeral(j))))
  }

  /** What idle hooks pass on in place of `d`. */
  ghost function Sent(hooks: seq<Hook>, g: Draft -> Draft, d: Draft): Draft {
    if NeverReplaces(hooks) then d else g(d)
  }

  lemma IdleAdmitted(hooks: seq<Hook>, g: Draft -> Draft, d: Draft)
    requires !Blocks(hooks) && Check(d).None? && Settles(g, d)
    ensures Admit(Idle(hooks, g), d) == Ok(Sent(hooks, g, d))
  {
    IdleTrip(hooks, g, d, false);
    hide Check, Idle, Travel;
  }

  lemma IdleBatch(hooks: seq<seq<Hook>>, g: Draft -> Draft, drafts: seq<Draft>)
    requires |hooks| == |drafts| && forall j :: 0 <= j < |hooks| ==> !Blocks(hooks[j])
    requires forall j :: 0 <= j < |drafts| ==> Check(drafts[j]).None? && Settles(g, drafts[j])
    ensures var r := AdmitFrom(IdleEach(hooks, g), drafts, 0);
      && r.Ok? && |r.value| == |hooks|
      && forall j :: 0 <= j < |hooks| ==> r.value[j] == Sent(hooks[j], g, drafts[j])
  {
    hide Idle, Blocks, Sent, Admit, AdmitFrom, Check, Settles;
    var h := IdleEach(hooks, g);
    forall j | 0 <= j < |hooks|
      ensures Admit(h[j], drafts[j]) == Ok(Sent(hooks[j], g, drafts[j]))
    {
      IdleAdmitted(hooks[j], g, drafts[j]);
    }
    hide IdleEach;
    FirstFailureDecides(h, drafts, 0);
    var r := AdmitFrom(h, drafts, 0);
    forall j | 0 <= j < |hooks| ensures r.value[j] == Sent(hooks[j], g, drafts[j]) {
      assert Admit(h[j], drafts[j]) == Ok(r.value[j]);
    }
  }

  lemma SpoiledRow(hooks: seq<seq<Hook>>)
    requires !KeepsChecks(hooks)
    ensures var t := Table([], 0);
      !AddsCheckedRows(t, BulkOutcome(IdleEach(hooks, Spoil), Numbered(|hooks|), t, false).table)
  {
    var h, drafts, t := IdleEach(hooks, Spoil), Numbered(|hooks|), Table([], 0);
    var j :| 0 <= j < |hooks| && !NeverReplaces(hooks[j]);
    hide NeverReplaces, Blocks, Idle, IdleEach, AdmitFrom, BackTo, WriteError, BulkOutcome, Check, Numbered, Spoil;
    NumberedSound(|hooks|, Spoil);
    IdleBatch(hooks, Spoil, drafts);
    var batch := AdmitFrom(h, drafts, 0).value;
    Admissible(batch);
    SpoiltFails(drafts[j]);
    WrittenOutcome(h, drafts, t, batch);
    assert Written(t, batch).rows[j] == Stored(j, batch[j]);
  }

  lemma SpoiltFails(d: Draft)
    requires Check(d).None?
    ensures Check(Spoil(d)) == Some(BadType)
  {
  }

  lemma NumberedSound(n: nat, g: Draft -> Draft)
    requires g in {Same, Spoil}
    ensures |Numbered(n)| == n
    ensures forall i :: 0 <= i < n ==> Check(Numbered(n)[i]).None? && Settles(g, Numbered(n)[i])
  {
  }

  lemma WrittenOutcome(hooks: seq<seq<Hook>>, drafts: seq<Draft>, t: Table, batch: seq<Draft>)
    requires |hooks| == |drafts| > 0 && AdmitFrom(hooks, drafts, 0) == Ok(batch) && WriteError(t, batch, false).None?
    ensures BulkOutcome(hooks, drafts, t, false).table == Written(t, batch) != t
    ensures BulkOutcome(hooks, drafts, t, false).result.Err? <==> BackTo(hooks, 0).Some?
  {
    assert Written(t, batch).nextId != t.nextId;
    hide AdmitFrom, BackTo, WriteError, EndingsAfterWrite, NewNodes;
  }

  // ----- When an error means that nothing was written -----

  ghost predicate NeverFailsAfter(hooks: seq<Hook>) {
    forall k :: 0 <= k < |hooks| ==> !hooks[k].FailAfter?
  }

  lemma {:induction false} AfterErrorKind(hooks: seq<Hook>)
    ensures AfterError(hooks).None? <==> NeverFailsAfter(hooks)
  {
    if hooks != [] {
      var rest := hooks[1..];
      AfterErrorKind(rest);
      assert forall k :: 0 <= k < |rest| ==> rest[k] == hooks[k + 1];
      assert forall k :: 1 <= k < |hooks| ==> hooks[k] == rest[k - 1];
    }
  }

  /** An error comes back from the builders after `i` exactly if one of them has a hook that fails after. */
  lemma {:induction false} BackToKind(hooks: seq<seq<Hook>>, i: nat)
    requires i <= |hooks|
    ensures BackTo(hooks, i).None? <==> forall j :: i <= j < |hooks| ==> NeverFailsAfter(hooks[j])
    decreases |hooks| - i
  {
    hide NeverFailsAfter;
    if i < |hooks| {
      BackToKind(hooks, i + 1);
      AfterErrorKind(hooks[i]);
    }
  }

  ghost predicate ErrorWroteNothing<T>(o: Outcome<T>, t: Table) {
    o.result.Err? ==> o.table == t
  }

  /** No hook fails after its call, or some hook stops the whole batch. */
  ghost predicate KeepsErrorsClean(hooks: seq<seq<Hook>>) {
    || (forall j :: 0 <= j < |hooks| ==> NeverFailsAfter(hooks[j]))
    || exists j :: 0 <= j < |hooks| && Blocks(hooks[j])
  }

  /** An error of a bulk save means that nothing was written, for all hooks of these kinds, all drafts and
      all tables, if and only if no hook fails after calling the next one or some hook fails before. */
  lemma ErrorsWriteNothingByKind(hooks: seq<seq<Hook>>)
    ensures (forall h: seq<seq<Hook>>, drafts: seq<Draft>, t: Table, fails: bool ::
               SameKindsEach(hooks, h) && |drafts| == |h| ==>
                 ErrorWroteNothing(BulkOutcome(h, drafts, t, fails), t))
        <==> KeepsErrorsClean(hooks)
  {
    if KeepsErrorsClean(hooks) {
      forall h: seq<seq<Hook>>, drafts: seq<Draft>, t: Table, fails: bool | SameKindsEach(hooks, h) && |drafts| == |h|
        ensures ErrorWroteNothing(BulkOutcome(h, drafts, t, fails), t)
      {
        CleanErrors(hooks, h, drafts, t, fails);
      }
    } else {
      assert SameKindsEach(hooks, IdleEach(hooks, Same));
      ErrorAfterWrite(hooks);
      var h, drafts, t := IdleEach(hooks, Same), Numbered(|hooks|), Table([], 0);
      assert !ErrorWroteNothing(BulkOutcome(h, drafts, t, false), t);
    }
  }

  lemma CleanErrors(hooks: seq<seq<Hook>>, h: seq<seq<Hook>>, drafts: seq<Draft>, t: Table, fails: bool)
    requires KeepsErrorsClean(hooks) && SameKindsEach(hooks, h) && |drafts| == |h|
    ensures ErrorWroteNothing(BulkOutcome(h, drafts, t, fails), t)
  {
    forall j | 0 <= j < |hooks|
      ensures NeverFailsAfter(hooks[j]) == NeverFailsAfter(h[j]) && Blocks(hooks[j]) == Blocks(h[j])
    {
      KindsTransfer(hooks[j], h[j]);
    }
    FirstFailureDecides(h, drafts, 0);
    BackToKind(h, 0);
    if j :| 0 <= j < |hooks| && Blocks(hooks[j]) {
      BlockedTrip(h[j], drafts[j], drafts[j], false);
      assert Admit(h[j], drafts[j]).Err?;
    }
    hide AdmitFrom, Admit, NeverFailsAfter, Blocks, WriteError, BackTo, Written;
  }

  /** Idle hooks of such kinds, one of which fails after the write. */
  lemma ErrorAfterWrite(hooks: seq<seq<Hook>>)
    requires !KeepsErrorsClean(hooks)
    ensures var t := Table([], 0);
      !ErrorWroteNothing(BulkOutcome(IdleEach(hooks, Same), Numbered(|hooks|), t, false), t)
  {
    var h, drafts, t := IdleEach(hooks, Same), Numbered(|hooks|), Table([], 0);
    var j :| 0 <= j < |hooks| && !NeverFailsAfter(hooks[j]);
    KindsTransfer(hooks[j], h[j]);
    hide NeverFailsAfter, NeverReplaces, Blocks, Idle, AdmitFrom, BackTo, WriteError, BulkOutcome, Check, Numbered;
    NumberedSound(|hooks|, Same);
    BackToKind(h, 0);
    IdleBatch(hooks, Same, drafts);
    assert AdmitFrom(h, drafts, 0).value == drafts;
    Admissible(drafts);
    hide IdleEach, Numbered;
    WrittenOutcome(h, drafts, t, drafts);
  }

  lemma Admissible(batch: seq<Draft>)
    requires forall j :: 0 <= j < |batch| ==> batch[j] in {Numbered(|batch|)[j], Spoil(Numbered(|batch|)[j])}
    ensures WriteError(Table([], 0), batch, false).None?
  {
    forall j | 0 <= j < |batch| ensures batch[j].code == Some(Numeral(j)) && !Incomplete(batch[j]) {
    }
    forall i, j | 0 <= i < j < |batch| ensures !Clash(batch[i], batch[j]) {
      assert |Numeral(i)| != |Numeral(j)|;
    }
  }

  // ----- Single creation -----

  /** What a single save does: the contents of the mutation that arrives are copied into the
      builder's own before it is checked. */
  function SingleOutcome(hooks: seq<Hook>, d: Draft, t: Table, driverFails: bool): Outcome<Node> {
    match Travel(hooks, d, d, false)
    case Blocked(e) => Outcome(t, Err(e), [UNDONE])
    case Reaches(_, sent) =>
      if Check(sent).Some? then Outcome(t, Err(Check(sent).value), [UNDONE])
      else if WriteError(t, [sent], driverFails).Some? then
        Outcome(t, Err(WriteError(t, [sent], driverFails).value), [UNDONE])
      else
        Outcome(Written(t, [sent]),
                if AfterError(hooks).Some? then Err(AfterError(hooks).value) else Ok(Node(t.nextId, sent)),
                [Ending(true, Some(t.nextId))])
  }

  /** A single save leaves the table alone or adds the row of the mutation that arrived, with the
      identifier the mutation and the returned node get. */
  lemma RowOfSingle(hooks: seq<Hook>, d: Draft, t: Table, driverFails: bool)
    ensures var o, n := SingleOutcome(hooks, d, t, driverFails), |t.rows|;
      && (o.table != t ==>
            && Extends(t, o.table, 1)
            && Travel(hooks, d, d, false).Reaches? && Travel(hooks, d, d, false).sent == o.table.rows[n].draft
            && o.endings == [Ending(true, Some(o.table.rows[n].id))])
      && (o.result.Ok? ==>
            && Extends(t, o.table, 1) && o.table.rows[n] == Stored(o.result.value.id, o.result.value.draft))
      && (IdsUnique(t) ==> IdsUnique(o.table)) && (Allowed(DraftsIn(t)) ==> Allowed(DraftsIn(o.table)))
  {
    var trip := Travel(hooks, d, d, false);
    if trip.Reaches? {
      WrittenExtends(t, [trip.sent]);
      if Allowed(DraftsIn(t)) { WriteErrorMeans(t, [trip.sent], driverFails); }
    }
    hide Travel, AfterError, Check, WriteError, Written, NewRows, Allowed, DraftsIn, IdsUnique;
  }

  class SingleSave {
    const hooks: seq<Hook>
    const driverFails: bool
    var mutation: Mutation
    /** The node built by `createSpec`, which the mutation's identifier points at once it is done. */
    var node: Option<Node>
    var table: Table

    ghost function Ends(): Ending
      reads this
    {
      Ending(mutation.done, if mutation.node.Some? && node.Some? then Some(node.value.id) else None)
    }

    constructor (d: Draft, hooks: seq<Hook>, now: int, table: Table, driverFails: bool)
      ensures this.hooks == hooks && this.driverFails == driverFails && this.table == table
      ensures mutation == Mutation(Defaults(d, now), None, false)
    {
      this.hooks, this.driverFails, this.table := hooks, driverFails, table;
      mutation, node := Mutation(Defaults(d, now), None, false), None;
    }

    /** On success the mutation is done and points at the node's identifier; it is done on a failing
        exit too if the row was written. */
    method Save() returns (r: Result<Node, Error>)
      requires Undone(mutation)
      modifies this
      ensures Outcome(table, r, [Ends()]) == SingleOutcome(hooks, old(mutation.draft), old(table), driverFails)
      ensures r.Ok? ==> mutation == Mutation(r.value.draft, Some(0), true)
      ensures mutation.done <==> table != old(table)
      ensures table == old(table) || Extends(old(table), table, 1)
      ensures r.Ok? ==>
                && Extends(old(table), table, 1)
                && table.rows[|old(table).rows|] == Stored(r.value.id, r.value.draft)
      ensures IdsUnique(old(table)) ==> IdsUnique(table)
    {
      RowOfSingle(hooks, mutation.draft, table, driverFails);
      assert hooks[0..] == hooks;
      r := RunHooks(0, None);
    }

    /** `other` is the mutation that took the place of the builder's own, if any. */
    method RunHooks(k: nat, other: Option<Draft>) returns (r: Result<Node, Error>)
      requires k <= |hooks| && Undone(mutation)
      modifies this
      ensures SingleRan(hooks[k..], old(mutation.draft), other, old(table), driverFails, mutation, node, table, r)
      decreases |hooks| - k
    {
      if k == |hooks| {
        assert hooks[k..] == [];
        if other.Some? { mutation := Mutation(other.value, None, false); }
        r := SqlSave();
        return;
      }
      assert hooks[k..][1..] == hooks[k + 1..];
      match hooks[k]
      case PassOn =>
        r := RunHooks(k + 1, other);
      case Change(f) =>
        if other.Some? {
          r := RunHooks(k + 1, Some(f(other.value)));
        } else {
          mutation := mutation.(draft := f(mutation.draft));
          r := RunHooks(k + 1, None);
        }
      case Replace(g) =>
        r := RunHooks(k + 1, Some(g(if other.Some? then other.value else mutation.draft)));
      case FailBefore(e) =>
        r := Err(e);
      case FailAfter(e) =>
        r := RunHooks(k + 1, other);
        if r.Ok? { r := Err(e); }
    }

    method SqlSave() returns (r: Result<Node, Error>)
      requires Undone(mutation)
      modifies this
      ensures SingleRan([], old(mutation.draft), None, old(table), driverFails, mutation, node, table, r)
    {
      var bad := Check(mutation.draft);
      if bad.Some? { return Err(bad.value); }
      node := Some(Node(0, mutation.draft));
      var failure := WriteError(table, [mutation.draft], driverFails);
      if failure.Some? { return Err(failure.value); }
      var id := table.nextId;
      table := Written(table, [mutation.draft]);
      node := Some(node.value.(id := id));
      mutation := mutation.(node := Some(0), done := true);
      r := Ok(node.value);
    }
  }

  /** What the remaining hooks and the save amount to. */
  ghost predicate SingleRan(rest: seq<Hook>, own: Draft, other: Option<Draft>, t: Table, driverFails: bool,
                            mutation: Mutation, node: Option<Node>, t': Table, r: Result<Node, Error>)
  {
    match Travel(rest, own, if other.Some? then other.value else own, other.Some?)
    case Blocked(e) => r == Err(e) && t' == t && Undone(mutation)
    case Reaches(_, sent) =>
      if Check(sent).Some? then r == Err(Check(sent).value) && t' == t && Undone(mutation)
      else if WriteError(t, [sent], driverFails).Some? then
        r == Err(WriteError(t, [sent], driverFails).value) && t' == t && Undone(mutation)
      else
        && t' == Written(t, [sent]) && mutation == Mutation(sent, Some(0), true) && node == Some(Node(t.nextId, sent))
        && r == if AfterError(rest).Some? then Err(AfterError(rest).value) else Ok(Node(t.nextId, sent))
  }

  /** The same for a single save. */
  lemma SingleErrorsByKind(hooks: seq<Hook>)
    ensures (forall h: seq<Hook>, d: Draft, t: Table, fails: bool :: SameKinds(hooks, h) ==>
               ErrorWroteNothing(SingleOutcome(h, d, t, fails), t))
        <==> NeverFailsAfter(hooks) || Blocks(hooks)
  {
    if NeverFailsAfter(hooks) || Blocks(hooks) {
      forall h: seq<Hook>, d: Draft, t: Table, fails: bool | SameKinds(hooks, h)
        ensures ErrorWroteNothing(SingleOutcome(h, d, t, fails), t)
      {
        KindsTransfer(hooks, h);
        AfterErrorKind(h);
        BlockedTrip(h, d, d, false);
        hide Travel, AfterError, Blocks, NeverFailsAfter, Check, WriteError;
      }
    } else {
      var h, t := Idle(hooks, Same), Table([], 0);
      IdleTrip(hooks, Same, SOUND, false);
      KindsTransfer(hooks, h);
      AfterErrorKind(h);
      assert Check(SOUND).None? && WriteError(t, [SOUND], false).None? && Written(t, [SOUND]).nextId != t.nextId;
      hide Idle, Travel, AfterError, Blocks, NeverFailsAfter, NeverReplaces, Check, WriteError, Written;
      assert !ErrorWroteNothing(SingleOutcome(h, SOUND, t, false), t);
    }
  }

  // ----- A bulk of one -----

  /** Both ways of saving reach the same verdict on what the hooks let through. */
  ghost predicate SameVerdict(hooks: seq<Hook>, d: Draft) {
    match Travel(hooks, d, d, false)
    case Blocked(_) => true
    case Reaches(own, sent) => Check(own) == Check(sent)
  }

  /** The same rows, the same node or error, the same done flag and identifier of the mutation. */
  ghost predicate SameOutcome(bulk: Outcome<seq<Node>>, single: Outcome<Node>) {
    && bulk.table == single.table && bulk.endings == single.endings
    && match single.result
       case Err(e) => bulk.result == Err(e)
       case Ok(node) => bulk.result == Ok([node])
  }

  /** A bulk of one builder has the outcome of a single save exactly if checking the builder's own
      mutation and checking the one that is written give the same result. */
  lemma BulkOfOne(hooks: seq<Hook>, d: Draft, t: Table, driverFails: bool)
    ensures SameOutcome(BulkOutcome([hooks], [d], t, driverFails), SingleOutcome(hooks, d, t, driverFails))
        <==> SameVerdict(hooks, d)
  {
    assert AdmitFrom([hooks], [d], 1) == Ok([]);
    BackToStep([hooks], 0);
    assert BackTo([hooks], 1) == None;
    var trip := Travel(hooks, d, d, false);
    if trip.Reaches? {
      assert [trip.sent] + [] == [trip.sent];
      assert NewNodes(t.nextId, [trip.sent]) == [Node(t.nextId, trip.sent)];
      assert Written(t, [trip.sent]) != t;
    }
  }

  /** Seen by the kinds of the hooks: the two ways of saving agree for all hooks of these kinds, all drafts
      and all tables, if and only if no hook replaces the mutation or some hook fails before. */
  lemma BulkOfOneByKind(hooks: seq<Hook>)
    ensures (forall h: seq<Hook>, d: Draft, t: Table, fails: bool :: SameKinds(hooks, h) ==>
               SameOutcome(BulkOutcome([h], [d], t, fails), SingleOutcome(h, d, t, fails)))
        <==> NeverReplaces(hooks) || Blocks(hooks)
  {
    if NeverReplaces(hooks) || Blocks(hooks) {
      forall h: seq<Hook>, d: Draft, t: Table, fails: bool | SameKinds(hooks, h)
        ensures SameOutcome(BulkOutcome([h], [d], t, fails), SingleOutcome(h, d, t, fails))
      {
        KindsTransfer(hooks, h);
        if Blocks(h) { BlockedTrip(h, d, d, false); } else { SameMutation(h, d); }
        hide *;
        BulkOfOne(h, d, t, fails);
      }
    } else {
      var t := Table([], 0);
      IdleTrip(hooks, Spoil, SOUND, false);
      assert Check(SOUND).None? && Check(Spoil(SOUND)).Some?;
      assert !SameVerdict(Idle(hooks, Spoil), SOUND);
      BulkOfOne(Idle(hooks, Spoil), SOUND, t, false);
      hide *;
      assert SameKinds(hooks, Idle(hooks, Spoil));
      var h := Idle(hooks, Spoil);
      assert !SameOutcome(BulkOutcome([h], [SOUND], t, false), SingleOutcome(h, SOUND, t, false));
    }
  }

  /** So it has for every list of hooks that never replaces the mutation. */
  lemma BulkOfOneWithoutReplacement(hooks: seq<Hook>, d: Draft, t: Table, driverFails: bool)
    requires NeverReplaces(hooks)
    ensures SameOutcome(BulkOutcome([hooks], [d], t, driverFails), SingleOutcome(hooks, d, t, driverFails))
  {
    SameMutation(hooks, d);
    BulkOfOne(hooks, d, t, driverFails);
  }
}
