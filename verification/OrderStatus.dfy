/** The status of a payment order that was split: receipts of all splits, newest first, and totals. */
module OrderStatus {
  import opened Wrappers

  datatype Transaction = Transaction(status: string, hash: string, at: int)

  datatype Split = Split(
    id: string, gatewayId: string, amount: real, amountInUsd: real, rate: real, percent: real, status: string,
    token: string, network: string, updatedAt: int, transactions: seq<Transaction>)

  datatype Receipt = Receipt(status: string, hash: string, at: int)

  datatype Settlement = Settlement(id: string, amount: real, rate: real, percent: real)

  datatype Response = Response(
    orderId: string, amount: real, amountInUsd: real, token: string, network: string, settlePercent: real,
    status: string, hash: string, settlements: seq<Settlement>, receipts: seq<Receipt>, updatedAt: int)

  const SHOWN := ["order_settled", "order_created", "order_refunded"]

  function TrimPrefix(s: string, prefix: string): string {
    if prefix <= s then s[|prefix|..] else s
  }

  function ReceiptOf(t: Transaction): Receipt {
    Receipt(if t.status == "order_created" then "pending" else TrimPrefix(t.status, "order_"), t.hash, t.at)
  }

  /** A transaction qualifies by one of three statuses. */
  ghost predicate Qualifies(t: Transaction) {
    t.status == "order_created" || t.status == "order_settled" || t.status == "order_refunded"
  }

  /** The three are shown, under these names, with the transaction's own hash and time. */
  lemma ReceiptStatus(t: Transaction)
    ensures t.status in SHOWN <==> Qualifies(t)
    ensures t.status == "order_created" ==> ReceiptOf(t) == Receipt("pending", t.hash, t.at)
    ensures t.status == "order_settled" ==> ReceiptOf(t) == Receipt("settled", t.hash, t.at)
    ensures t.status == "order_refunded" ==> ReceiptOf(t) == Receipt("refunded", t.hash, t.at)
  {
    assert SHOWN == [SHOWN[0], SHOWN[1], SHOWN[2]];
    assert "order_settled" == "order_" + "settled";
    assert "order_refunded" == "order_" + "refunded";
  }

  /** `at` lists the positions of the qualifying transactions in order. */
  ghost predicate QualifyAt(ts: seq<Transaction>, at: seq<nat>) {
    && (forall k :: 0 <= k < |at| ==> at[k] < |ts| && Qualifies(ts[at[k]]))
    && (forall k, l :: 0 <= k < l < |at| ==> at[k] < at[l])
    && (forall i :: 0 <= i < |ts| && Qualifies(ts[i]) ==> i in at)
  }

  lemma ReceiptsStep(ts: seq<Transaction>)
    requires ts != []
    ensures var n := |ts| - 1;
      ReceiptsOf(ts) == if Qualifies(ts[n]) then ReceiptsOf(ts[..n]) + [ReceiptOf(ts[n])] else ReceiptsOf(ts[..n])
  {
    ReceiptStatus(ts[|ts| - 1]);
    hide Qualifies, ReceiptOf;
  }

  lemma {:induction false} ReceiptsCount(ts: seq<Transaction>, at: seq<nat>)
    requires QualifyAt(ts, at)
    ensures |ReceiptsOf(ts)| == |at|
  {
    if ts == [] {
      assert at == [];
    } else {
      hide *;
      ReceiptsStep(ts);
      LastPosition(ts, at);
      var n := |ts| - 1;
      ReceiptsCount(ts[..n], if Qualifies(ts[n]) then at[..|at| - 1] else at);
    }
  }

  /** The receipts of a split are those of its qualifying transactions, one each and in their order. */
  lemma {:induction false} ReceiptsMean(ts: seq<Transaction>, at: seq<nat>, k: nat)
    requires QualifyAt(ts, at) && k < |at|
    ensures |ReceiptsOf(ts)| == |at| && at[k] < |ts|
    ensures ReceiptsOf(ts)[k] == ReceiptOf(ts[at[k]])
  {
    hide *;
    PositionInRange(ts, at, k);
    ReceiptsStep(ts);
    LastPosition(ts, at);
    ReceiptsCount(ts, at);
    var n := |ts| - 1;
    var rest := if Qualifies(ts[n]) then at[..|at| - 1] else at;
    ReceiptsCount(ts[..n], rest);
    if k < |rest| { ReceiptsMean(ts[..n], rest, k); }
  }

  lemma PositionInRange(ts: seq<Transaction>, at: seq<nat>, k: nat)
    requires QualifyAt(ts, at) && k < |at|
    ensures at[k] < |ts|
  {
  }

  lemma LastPosition(ts: seq<Transaction>, at: seq<nat>)
    requires ts != [] && QualifyAt(ts, at)
    ensures var n, m := |ts| - 1, |at| - 1;
      if Qualifies(ts[n]) then at != [] && at[m] == n && QualifyAt(ts[..n], at[..m])
      else QualifyAt(ts[..n], at)
  {
    hide Qualifies;
    var n, m := |ts| - 1, |at| - 1;
    var front := ts[..n];
    assert forall i :: 0 <= i < n ==> front[i] == ts[i];
    if Qualifies(ts[n]) {
      assert n in at;
      assert at[m] < |ts| && forall l :: 0 <= l < m ==> at[l] < at[m];
      var before := at[..m];
      assert forall l :: 0 <= l < m ==> before[l] == at[l];
      var k :| 0 <= k < |at| && at[k] == n;
      forall i | 0 <= i < n && Qualifies(front[i]) ensures i in before {
        var l :| 0 <= l < |at| && at[l] == i;
        assert before[l] == i;
      }
    } else {
      assert forall l :: 0 <= l < |at| ==> at[l] != n;
    }
  }

  // ----- Specification -----

  /** The receipts of the shown transactions, in the order they are met. */
  function ReceiptsOf(ts: seq<Transaction>): seq<Receipt> {
    if ts == [] then []
    else
      var last := ts[|ts| - 1];
      ReceiptsOf(ts[..|ts| - 1]) + (if last.status in SHOWN then [ReceiptOf(last)] else [])
  }

  function AllReceipts(splits: seq<Split>): seq<Receipt> {
    if splits == [] then []
    else AllReceipts(splits[..|splits| - 1]) + ReceiptsOf(splits[|splits| - 1].transactions)
  }

  function Total(xs: seq<real>): real {
    if xs == [] then 0.0 else Total(xs[..|xs| - 1]) + xs[|xs| - 1]
  }

  function Amounts(splits: seq<Split>): seq<real> { seq(|splits|, i requires 0 <= i < |splits| => splits[i].amount) }
  function UsdAmounts(splits: seq<Split>): seq<real> {
    seq(|splits|, i requires 0 <= i < |splits| => splits[i].amountInUsd)
  }
  function Percents(splits: seq<Split>): seq<real> { seq(|splits|, i requires 0 <= i < |splits| => splits[i].percent) }

  function Settlements(splits: seq<Split>): seq<Settlement> {
    seq(|splits|, i requires 0 <= i < |splits| =>
      Settlement(splits[i].id, splits[i].amount, splits[i].rate, splits[i].percent))
  }

  /** The receipts of one instant, in order. */
  function AtTime(rs: seq<Receipt>, t: int): seq<Receipt> {
    if rs == [] then []
    else (if rs[0].at == t then [rs[0]] else []) + AtTime(rs[1..], t)
  }

  ghost predicate NewestFirst(rs: seq<Receipt>) {
    forall i, j :: 0 <= i < j < |rs| ==> rs[i].at >= rs[j].at
  }

  /** `sorted` is `rs` newest first, with receipts of the same instant left in their order. */
  ghost predicate StablySorted(rs: seq<Receipt>, sorted: seq<Receipt>) {
    NewestFirst(sorted) && forall t :: AtTime(sorted, t) == AtTime(rs, t)
  }

  /** That determines the result completely, so it does not matter which stable sort is used. */
  lemma {:induction false} StableSortUnique(a: seq<Receipt>, b: seq<Receipt>)
    requires NewestFirst(a) && NewestFirst(b) && forall t :: AtTime(a, t) == AtTime(b, t)
    ensures a == b
  {
    SameEmptiness(a, b);
    if a != [] {
      HeadIsLatest(a, b);
      HeadIsLatest(b, a);
      assert AtTime(a, a[0].at)[0] == a[0] && AtTime(b, a[0].at)[0] == b[0];
      forall t ensures AtTime(a[1..], t) == AtTime(b[1..], t) {
        assert AtTime(a, t) == AtTime(b, t);
        AtTimeTail(a, t);
        AtTimeTail(b, t);
      }
      StableSortUnique(a[1..], b[1..]);
      assert a == [a[0]] + a[1..] && b == [b[0]] + b[1..];
    }
  }

  lemma SameEmptiness(a: seq<Receipt>, b: seq<Receipt>)
    requires forall t :: AtTime(a, t) == AtTime(b, t)
    ensures a == [] <==> b == []
  {
    if a != [] { assert AtTime(a, a[0].at) != []; }
    if b != [] { assert AtTime(b, b[0].at) != []; }
  }

  lemma AtTimeTail(rs: seq<Receipt>, t: int)
    requires rs != []
    ensures AtTime(rs[1..], t) == if rs[0].at == t then AtTime(rs, t)[1..] else AtTime(rs, t)
  {
  }

  lemma HeadIsLatest(a: seq<Receipt>, b: seq<Receipt>)
    requires a != [] && b != [] && NewestFirst(b) && forall t :: AtTime(a, t) == AtTime(b, t)
    ensures a[0].at <= b[0].at
  {
    var t := a[0].at;
    assert AtTime(b, t) == AtTime(a, t) != [];
    AtTimeMembers(b, t);
    var r := AtTime(b, t)[0];
    assert r in AtTime(b, t);
    var i :| 0 <= i < |b| && b[i] == r;
  }

  lemma {:induction false} AtTimeMembers(rs: seq<Receipt>, t: int)
    ensures forall r :: r in AtTime(rs, t) <==> r in rs && r.at == t
  {
    if rs != [] {
      AtTimeMembers(rs[1..], t);
      assert rs == [rs[0]] + rs[1..];
    }
  }

  // ----- The sort -----

  function InsertReceipt(sorted: seq<Receipt>, r: Receipt): seq<Receipt> {
    if sorted == [] then [r]
    else if sorted[0].at >= r.at then [sorted[0]] + InsertReceipt(sorted[1..], r)
    else [r] + sorted
  }

  function SortReceipts(rs: seq<Receipt>): seq<Receipt> {
    if rs == [] then [] else InsertReceipt(SortReceipts(rs[..|rs| - 1]), rs[|rs| - 1])
  }

  lemma {:induction false} InsertPermutes(s: seq<Receipt>, r: Receipt)
    ensures multiset(InsertReceipt(s, r)) == multiset(s) + multiset{r}
    ensures forall x :: x in InsertReceipt(s, r) <==> x in s || x == r
  {
    if s != [] {
      assert s == [s[0]] + s[1..];
      if s[0].at >= r.at { InsertPermutes(s[1..], r); }
    }
  }

  lemma {:induction false} InsertSorts(s: seq<Receipt>, r: Receipt)
    requires NewestFirst(s)
    ensures NewestFirst(InsertReceipt(s, r))
  {
    if s != [] && s[0].at >= r.at {
      InsertSorts(s[1..], r);
      InsertPermutes(s[1..], r);
      var rest := InsertReceipt(s[1..], r);
      forall i | 0 <= i < |rest| ensures s[0].at >= rest[i].at {
        assert rest[i] in rest;
        if rest[i] != r { assert rest[i] in s[1..]; }
      }
    }
  }

  lemma {:induction false} InsertStable(s: seq<Receipt>, r: Receipt, t: int)
    requires NewestFirst(s)
    ensures AtTime(InsertReceipt(s, r), t) == AtTime(s, t) + if r.at == t then [r] else []
  {
    if s != [] {
      if s[0].at >= r.at {
        InsertStable(s[1..], r, t);
        assert s == [s[0]] + s[1..];
        AtTimeCons(s[0], InsertReceipt(s[1..], r), t);
        AtTimeCons(s[0], s[1..], t);
        hide AtTime;
      } else {
        AtTimeCons(r, s, t);
        hide AtTime;
        if r.at == t { NoneLater(s, t); }
      }
    }
  }

  lemma {:induction false} NoneLater(s: seq<Receipt>, t: int)
    requires NewestFirst(s) && (s != [] ==> s[0].at < t)
    ensures AtTime(s, t) == []
  {
    if s != [] { NoneLater(s[1..], t); }
  }

  lemma AtTimeCons(r: Receipt, rest: seq<Receipt>, t: int)
    ensures AtTime([r] + rest, t) == (if r.at == t then [r] else []) + AtTime(rest, t)
  {
    assert ([r] + rest)[1..] == rest;
  }

  lemma {:induction false} AtTimeConcat(a: seq<Receipt>, b: seq<Receipt>, t: int)
    ensures AtTime(a + b, t) == AtTime(a, t) + AtTime(b, t)
  {
    if a == [] {
      assert a + b == b;
    } else {
      var rest := a[1..] + b;
      assert a + b == [a[0]] + rest;
      AtTimeConcat(a[1..], b, t);
      AtTimeCons(a[0], a[1..], t);
      AtTimeCons(a[0], rest, t);
      assert a == [a[0]] + a[1..];
      hide AtTime;
    }
  }

  /** The sort is a stable permutation, newest first. */
  lemma {:induction false} SortStable(rs: seq<Receipt>)
    ensures StablySorted(rs, SortReceipts(rs)) && multiset(SortReceipts(rs)) == multiset(rs)
  {
    if rs != [] {
      var front, last := rs[..|rs| - 1], rs[|rs| - 1];
      assert rs == front + [last];
      SortStable(front);
      InsertSorts(SortReceipts(front), last);
      InsertPermutes(SortReceipts(front), last);
      forall t ensures AtTime(SortReceipts(rs), t) == AtTime(rs, t) {
        InsertStable(SortReceipts(front), last, t);
        AtTimeConcat(front, [last], t);
        AtTimeCons(last, [], t);
        assert AtTime([], t) == [] && [last] + [] == [last];
        hide AtTime, InsertReceipt;
      }
    }
  }

  // ----- The handler -----

  /** The receipt was issued at a time no other receipt is later than. */
  ghost predicate IsLatest(all: seq<Receipt>, r: Receipt) {
    r in all && forall i :: 0 <= i < |all| ==> all[i].at <= r.at
  }

  /** `GetLockPaymentOrderStatus` once the splits were fetched; `None` is the "not found" answer. */
  method GetLockPaymentOrderStatus(splits: seq<Split>) returns (r: Option<Response>)
    ensures r.None? <==>
              forall i, k :: 0 <= i < |splits| && 0 <= k < |splits[i].transactions| ==>
                !Qualifies(splits[i].transactions[k])
    ensures r.Some? ==> splits != [] && Reports(splits, r.value)
  {
    NoneQualifies(splits);
    var receipts, settlements, percent, amount, usd := Aggregate(splits);
    NothingShown(splits);
    SortStable(receipts);
    var sorted := SortReceipts(receipts);
    if |splits| == 0 || |sorted| == 0 {
      assert |multiset(receipts)| == |multiset(sorted)|;
      return None;
    }
    LatestFirst(receipts, sorted);
    var status := splits[0].status;
    if status == "cancelled" { status := "processing"; }
    r := Some(Response(splits[0].gatewayId, amount, usd, splits[0].token, splits[0].network, percent, status,
                       sorted[0].hash, settlements, sorted, splits[0].updatedAt));
  }

  /** The receipts are those of the shown transactions of all splits, newest first and otherwise in the
      order met; the hash is that of a latest one; the totals are the sums over the splits. */
  ghost predicate Reports(splits: seq<Split>, p: Response)
    requires splits != []
  {
    && StablySorted(AllReceipts(splits), p.receipts) && multiset(p.receipts) == multiset(AllReceipts(splits))
    && p.receipts != [] && IsLatest(AllReceipts(splits), p.receipts[0]) && p.hash == p.receipts[0].hash
    && p.settlements == Settlements(splits)
    && p.amount == Total(Amounts(splits)) && p.amountInUsd == Total(UsdAmounts(splits))
    && p.settlePercent == Total(Percents(splits))
    && p.orderId == splits[0].gatewayId && p.token == splits[0].token && p.network == splits[0].network
    && p.updatedAt == splits[0].updatedAt
    && p.status == if splits[0].status == "cancelled" then "processing" else splits[0].status
  }

  /** The loop over the splits. */
  method Aggregate(splits: seq<Split>)
    returns (receipts: seq<Receipt>, settlements: seq<Settlement>, percent: real, amount: real, usd: real)
    ensures receipts == AllReceipts(splits) && settlements == Settlements(splits)
    ensures percent == Total(Percents(splits)) && amount == Total(Amounts(splits)) && usd == Total(UsdAmounts(splits))
  {
    receipts, settlements := [], [];
    percent, amount, usd := 0.0, 0.0, 0.0;
    for i := 0 to |splits|
      invariant receipts == AllReceipts(splits[..i])
      invariant settlements == Settlements(splits)[..i]
      invariant percent == Total(Percents(splits)[..i])
      invariant amount == Total(Amounts(splits)[..i])
      invariant usd == Total(UsdAmounts(splits)[..i])
    {
      assert splits[..i + 1][..i] == splits[..i];
      receipts := AppendReceipts(receipts, splits[i].transactions);
      settlements := settlements + [Settlement(splits[i].id, splits[i].amount, splits[i].rate, splits[i].percent)];
      TotalSnoc(Percents(splits), i);
      TotalSnoc(Amounts(splits), i);
      TotalSnoc(UsdAmounts(splits), i);
      hide Total, ReceiptsOf;
      percent := percent + splits[i].percent;
      amount := amount + splits[i].amount;
      usd := usd + splits[i].amountInUsd;
    }
    assert splits[..|splits|] == splits;
    assert Percents(splits)[..|splits|] == Percents(splits);
    assert Amounts(splits)[..|splits|] == Amounts(splits);
    assert UsdAmounts(splits)[..|splits|] == UsdAmounts(splits);
  }

  /** The inner loop over the transactions of one split. */
  method AppendReceipts(before: seq<Receipt>, ts: seq<Transaction>) returns (receipts: seq<Receipt>)
    ensures receipts == before + ReceiptsOf(ts)
  {
    receipts := before;
    for j := 0 to |ts|
      invariant receipts == before + ReceiptsOf(ts[..j])
    {
      assert ts[..j + 1][..j] == ts[..j];
      if ts[j].status in SHOWN { receipts := receipts + [ReceiptOf(ts[j])]; }
    }
    assert ts[..|ts|] == ts;
  }

  lemma TotalSnoc(xs: seq<real>, i: nat)
    requires i < |xs|
    ensures Total(xs[..i + 1]) == Total(xs[..i]) + xs[i]
  {
    assert xs[..i + 1][..i] == xs[..i];
  }

  lemma {:induction false} NothingShown(splits: seq<Split>)
    ensures AllReceipts(splits) == [] <==> forall i :: 0 <= i < |splits| ==> ReceiptsOf(splits[i].transactions) == []
  {
    if splits != [] {
      var front, last := splits[..|splits| - 1], splits[|splits| - 1];
      NothingShown(front);
      hide AllReceipts, ReceiptsOf;
      assert forall i :: 0 <= i < |front| ==> splits[i] == front[i];
    }
  }

  lemma NoneQualifies(splits: seq<Split>)
    ensures (forall i :: 0 <= i < |splits| ==> ReceiptsOf(splits[i].transactions) == []) <==>
              forall i, k :: 0 <= i < |splits| && 0 <= k < |splits[i].transactions| ==>
                !Qualifies(splits[i].transactions[k])
  {
    forall i | 0 <= i < |splits|
      ensures ReceiptsOf(splits[i].transactions) == [] <==>
              forall k :: 0 <= k < |splits[i].transactions| ==> !Qualifies(splits[i].transactions[k])
    {
      NoReceipts(splits[i].transactions);
    }
    hide ReceiptsOf, Qualifies;
  }

  lemma {:induction false} NoReceipts(ts: seq<Transaction>)
    ensures ReceiptsOf(ts) == [] <==> forall k :: 0 <= k < |ts| ==> !Qualifies(ts[k])
  {
    if ts != [] {
      NoReceipts(ts[..|ts| - 1]);
      ReceiptStatus(ts[|ts| - 1]);
      hide Qualifies, ReceiptOf;
      assert forall k :: 0 <= k < |ts| - 1 ==> ts[..|ts| - 1][k] == ts[k];
    }
  }

  lemma LatestFirst(all: seq<Receipt>, sorted: seq<Receipt>)
    requires sorted != [] && NewestFirst(sorted) && multiset(sorted) == multiset(all)
    ensures IsLatest(all, sorted[0])
  {
    assert sorted[0] in multiset(all);
    forall i | 0 <= i < |all| ensures all[i].at <= sorted[0].at {
      assert all[i] in multiset(sorted);
      var j :| 0 <= j < |sorted| && sorted[j] == all[i];
    }
  }
}
