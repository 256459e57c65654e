/** The entity schema the generated query code is instantiated with. */
module Schemas {
  import opened RowSet

  /** `ToMany`: the child row holds the foreign key.  `ToOne`: the parent row does. */
  datatype EdgeKind = ToMany | ToOne

  datatype Edge = Edge(name: string, kind: EdgeKind, column: Column, target: TableName)

  /** `edges` is in the order in which `sqlAll` loads them. */
  datatype Entity = Entity(columns: seq<Column>, foreignKeys: seq<Column>, edges: seq<Edge>)

  datatype Schema = Schema(entities: map<TableName, Entity>) {
    function Of(table: TableName): Entity {
      if table in entities then entities[table] else Entity([], [], [])
    }

    /** Every edge's column is a foreign key of the table that holds it. */
    ghost predicate Valid() {
      forall t, j :: t in entities && 0 <= j < |entities[t].edges| ==> EdgeColumnKnown(t, j)
    }

    ghost predicate EdgeColumnKnown(t: TableName, j: nat)
      requires t in entities && j < |entities[t].edges|
    {
      var e := entities[t].edges[j];
      e.column in Of(if e.kind.ToMany? then e.target else t).foreignKeys
    }

    lemma EdgeColumn(t: TableName, j: nat)
      requires Valid()
      requires j < |Of(t).edges|
      ensures var e := Of(t).edges[j];
              e.column in Of(if e.kind.ToMany? then e.target else t).foreignKeys
    {
      assert EdgeColumnKnown(t, j);
    }
  }

  const CURRENCIES := "fiat_currencies"
  const INSTITUTIONS := "institutions"
  const API_KEYS := "api_keys"

  const CURRENCY_OF_INSTITUTION := "fiat_currency_institutions"

  const FIAT_CURRENCY := Entity(
    ["id", "created_at", "updated_at", "code", "short_name", "decimals", "symbol", "name", "market_rate", "is_enabled"],
    [],
    [Edge("provider_currencies", ToMany, "fiat_currency_provider_currencies", "provider_currencies"),
     Edge("provision_buckets", ToMany, "fiat_currency_provision_buckets", "provision_buckets"),
     Edge("institutions", ToMany, CURRENCY_OF_INSTITUTION, INSTITUTIONS),
     Edge("provider_order_tokens", ToMany, "fiat_currency_provider_order_tokens", "provider_order_tokens")])

  const INSTITUTION := Entity(
    ["id", "created_at", "updated_at", "code", "name", "type"],
    [CURRENCY_OF_INSTITUTION],
    [Edge("fiat_currency", ToOne, CURRENCY_OF_INSTITUTION, CURRENCIES)])

  const API_KEY := Entity(
    ["id", "secret"],
    ["provider_profile_api_key", "sender_profile_api_key"],
    [Edge("sender_profile", ToOne, "sender_profile_api_key", "sender_profiles"),
     Edge("provider_profile", ToOne, "provider_profile_api_key", "provider_profiles"),
     Edge("payment_orders", ToMany, "api_key_payment_orders", "payment_orders")])

  /** The three entities whose queries are modelled, and the tables their edges lead to
      (whose own edges are not followed further). */
  const STABLENODE := Schema(map[
    CURRENCIES := FIAT_CURRENCY,
    INSTITUTIONS := INSTITUTION,
    API_KEYS := API_KEY,
    "provider_currencies" := Entity(
      ["id", "available_balance", "total_balance", "reserved_balance", "is_available", "updated_at"],
      ["fiat_currency_provider_currencies", "provider_profile_provider_currencies"], []),
    "provision_buckets" := Entity(
      ["id", "min_amount", "max_amount", "created_at"], ["fiat_currency_provision_buckets"], []),
    "provider_order_tokens" := Entity(
      ["id", "created_at", "updated_at", "fixed_conversion_rate", "floating_conversion_rate", "conversion_rate_type",
       "max_order_amount", "min_order_amount", "rate_slippage", "address", "network"],
      ["fiat_currency_provider_order_tokens", "provider_profile_order_tokens", "token_provider_order_tokens"], []),
    "sender_profiles" := Entity(
      ["id", "webhook_url", "domain_whitelist", "provider_id", "is_partner", "is_active", "updated_at"],
      ["user_sender_profile"], []),
    "provider_profiles" := Entity(
      ["id", "trading_name", "host_identifier", "provision_mode", "is_active", "is_kyb_verified", "updated_at",
       "visibility_mode"],
      ["user_provider_profile"], []),
    "payment_orders" := Entity(
      ["id", "created_at", "updated_at", "amount", "amount_paid", "amount_returned", "percent_settled", "sender_fee",
       "network_fee", "protocol_fee", "rate", "tx_hash", "block_number", "from_address", "return_address",
       "receive_address_text", "fee_percent", "fee_address", "gateway_id", "message_hash", "reference", "status",
       "amount_in_usd"],
      ["api_key_payment_orders", "linked_address_payment_orders", "sender_profile_payment_orders",
       "token_payment_orders"], [])
  ])

  lemma StablenodeSchemaValid()
    ensures STABLENODE.Valid()
    ensures STABLENODE.Of(CURRENCIES) == FIAT_CURRENCY
    ensures STABLENODE.Of(INSTITUTIONS) == INSTITUTION
    ensures STABLENODE.Of(API_KEYS) == API_KEY
  {
    CurrencyEdges();
    InstitutionEdges();
    ApiKeyEdges();
    forall t, j | t in STABLENODE.entities && 0 <= j < |STABLENODE.entities[t].edges|
      ensures STABLENODE.EdgeColumnKnown(t, j)
    {
      assert t == CURRENCIES || t == INSTITUTIONS || t == API_KEYS;
      hide *;
    }
  }

  lemma CurrencyEdges()
    ensures CURRENCIES in STABLENODE.entities && STABLENODE.entities[CURRENCIES] == FIAT_CURRENCY
    ensures forall j :: 0 <= j < |FIAT_CURRENCY.edges| ==> STABLENODE.EdgeColumnKnown(CURRENCIES, j)
  {
  }

  lemma InstitutionEdges()
    ensures INSTITUTIONS in STABLENODE.entities && STABLENODE.entities[INSTITUTIONS] == INSTITUTION
    ensures forall j :: 0 <= j < |INSTITUTION.edges| ==> STABLENODE.EdgeColumnKnown(INSTITUTIONS, j)
  {
  }

  lemma ApiKeyEdges()
    ensures API_KEYS in STABLENODE.entities && STABLENODE.entities[API_KEYS] == API_KEY
    ensures forall j :: 0 <= j < |API_KEY.edges| ==> STABLENODE.EdgeColumnKnown(API_KEYS, j)
  {
  }
}
