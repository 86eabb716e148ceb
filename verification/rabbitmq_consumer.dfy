/** `RabbitMQConsumer`: connects to the broker with bounded retries, and projects
    each change event from `data_sync` onto the secondary ("query") database:
    `create`/`update` upsert the row keyed by `data.id`, `delete` removes it. */
module RabbitMQConsumer {
  import opened Common

  const MaxRetries: nat := 3
  const RetryDelay: nat := 5

  /** A row of the query database: column name to value. */
  type QueryRow = map<string, PhpValue>

  /** A query-database table, keyed by the value of its `id` column. */
  type QueryTable = map<PhpValue, QueryRow>

  datatype QueryStore = QueryStore(categories: QueryTable, products: QueryTable)

  /** Every row sits under the value of its own `id` column. */
  predicate KeyedById(t: QueryTable)
  {
    forall k :: k in t ==> "id" in t[k] && t[k]["id"] == k
  }

  /** `updateOrInsert(['id' => $data['id']], $data)`: a new row is `$data`; an
      existing row keeps its other columns and takes every column of `$data`. */
  function Upsert(t: QueryTable, data: map<string, PhpValue>): (r: QueryTable)
    requires "id" in data
    ensures r.Keys == t.Keys + {data["id"]}
    ensures forall c :: c in data ==> c in r[data["id"]] && r[data["id"]][c] == data[c]
    ensures data["id"] in t ==> forall c :: c in t[data["id"]] && c !in data ==> c in r[data["id"]] && r[data["id"]][c] == t[data["id"]][c]
    ensures forall k :: k in t && k != data["id"] ==> r[k] == t[k]
  {
    var key := data["id"];
    t[key := if key in t then t[key] + data else data]
  }

  /** `->where('id', $data['id'])->delete()`. */
  function Delete(t: QueryTable, key: PhpValue): (r: QueryTable)
    ensures r.Keys == t.Keys - {key}
    ensures forall k :: k in r ==> r[k] == t[k]
  {
    t - {key}
  }

  /** The two tables the consumer writes. */
  datatype Target = Categories | Products

  function TableOf(s: QueryStore, target: Target): QueryTable
  {
    match target
    case Categories => s.categories
    case Products => s.products
  }

  function WithTable(s: QueryStore, target: Target, t: QueryTable): QueryStore
  {
    match target
    case Categories => s.(categories := t)
    case Products => s.(products := t)
  }

  /** Where `processMessage` sends a decoded message. */
  datatype Route =
    | Malformed          // undecodable, or `action` / `data` missing or null
    | UnknownTable       // `table` missing (the undefined-key warning throws) or neither table
    | UnknownAction      // an action the `categories` switch does not know: `default` throws
    | UpsertRow(target: Target, data: PhpValue)
    | DeleteRow(target: Target, data: PhpValue)
    | NoCase(action: PhpValue)  // an action the `products` switch does not know: no `default`

  function RouteOf(decoded: Option<PhpValue>): (r: Route)
    ensures (decoded.None? || !IsSet(decoded.value, "action") || !IsSet(decoded.value, "data")) ==> r == Malformed
  {
    if decoded.None? || !IsSet(decoded.value, "action") || !IsSet(decoded.value, "data") then Malformed
    else
      var m := decoded.value.entries;
      if "table" !in m then UnknownTable
      else
        var action := m["action"];
        var data := m["data"];
        var target :=
          if LooseEquals(m["table"], "categories") then Some(Categories)
          else if LooseEquals(m["table"], "products") then Some(Products)
          else None;
        if target.None? then UnknownTable
        else if LooseEquals(action, "create") || LooseEquals(action, "update") then UpsertRow(target.value, data)
        else if LooseEquals(action, "delete") then DeleteRow(target.value, data)
        else if target.value == Categories then UnknownAction
        else NoCase(action)
  }

  /** `insertOrUpdateCategory` / `insertOrUpdateProduct` on an array `$data`: `None`
      when it throws (no `name`, no usable `id`, or the database refuses the write). */
  function UpsertHandler(t: QueryTable, data: PhpValue, storeFails: bool): (r: Option<QueryTable>)
    requires IsArray(data)
    ensures r.Some? <==> IsSet(data, "name") && IsSet(data, "id") && !storeFails
    ensures r.Some? ==> r.value == Upsert(t, data.entries)
  {
    if !IsSet(data, "name") || !IsSet(data, "id") || storeFails then None
    else Some(Upsert(t, data.entries))
  }

  /** `deleteCategory` / `deleteProduct` on an array `$data`. */
  function DeleteHandler(t: QueryTable, data: PhpValue, storeFails: bool): (r: Option<QueryTable>)
    requires IsArray(data)
    ensures r.Some? <==> IsSet(data, "id") && !storeFails
    ensures r.Some? ==> r.value == Delete(t, data.entries["id"])
  {
    if !IsSet(data, "id") || storeFails then None
    else Some(Delete(t, data.entries["id"]))
  }

  /** What happens to the delivery. `AckThenRequeue` and `Escaped` only arise as written. */
  datatype Outcome =
    | Ack
    | Requeue          // `$message->reject(true)`
    | AckThenRequeue   // acked, then the `catch` rejects the same delivery
    | Escaped          // a `TypeError` leaves `processMessage`: no ack, no reject

  datatype Step = Step(outcome: Outcome, store: QueryStore)

  /** The handler's effect, given the route; `None` when it throws. */
  function HandlerResult(s: QueryStore, route: Route, storeFails: bool): Option<QueryTable>
    requires (route.UpsertRow? || route.DeleteRow?) && IsArray(route.data)
  {
    if route.UpsertRow? then UpsertHandler(TableOf(s, route.target), route.data, storeFails)
    else DeleteHandler(TableOf(s, route.target), route.data, storeFails)
  }

  /** `processMessage` as written. The handlers declare `array $data`, so any other
      `data` raises a `TypeError`, which `catch (\Exception $e)` does not catch; and
      an array `action` on `products` is acked, after which interpolating it into the
      log line throws and the `catch` rejects the already acked delivery. */
  function ProcessAsWritten(s: QueryStore, decoded: Option<PhpValue>, storeFails: bool): Step
  {
    var route := RouteOf(decoded);
    match route
    case Malformed => Step(Requeue, s)
    case UnknownTable => Step(Requeue, s)
    case UnknownAction => Step(Requeue, s)
    case NoCase(action) => Step(if IsArray(action) then AckThenRequeue else Ack, s)
    case _ =>
      if !IsArray(route.data) then Step(Escaped, s)
      else match HandlerResult(s, route, storeFails)
        case None => Step(Requeue, s)
        case Some(t) => Step(Ack, WithTable(s, route.target, t))
  }

  /** `processMessage` as its `try`/`catch` intends: every failure rejects with
      requeue, and a delivery is acked once. */
  function Process(s: QueryStore, decoded: Option<PhpValue>, storeFails: bool): (r: Step)
    ensures r.outcome == Ack || r.outcome == Requeue
    ensures r.outcome == Requeue ==> r.store == s
  {
    var route := RouteOf(decoded);
    match route
    case Malformed => Step(Requeue, s)
    case UnknownTable => Step(Requeue, s)
    case UnknownAction => Step(Requeue, s)
    case NoCase(_) => Step(Ack, s)
    case _ =>
      if !IsArray(route.data) then Step(Requeue, s)
      else match HandlerResult(s, route, storeFails)
        case None => Step(Requeue, s)
        case Some(t) => Step(Ack, WithTable(s, route.target, t))
  }

  /** A `categories` message whose `data` is a string: as written it escapes. */
  lemma TypeErrorEscapesAsWritten(s: QueryStore)
    ensures ProcessAsWritten(s, Some(Assoc(map["action" := Str("create"), "table" := Str("categories"), "data" := Str("x")])), false).outcome == Escaped
  {
    var m := Assoc(map["action" := Str("create"), "table" := Str("categories"), "data" := Str("x")]);
    assert RouteOf(Some(m)) == UpsertRow(Categories, Str("x"));
  }

  /** A `products` message whose `action` is an array: as written it is acked and then rejected. */
  lemma ArrayActionAckedTwiceAsWritten(s: QueryStore)
    ensures ProcessAsWritten(s, Some(Assoc(map["action" := List([]), "table" := Str("products"), "data" := Assoc(map[])])), false).outcome == AckThenRequeue
  {
    var m := Assoc(map["action" := List([]), "table" := Str("products"), "data" := Assoc(map[])]);
    assert RouteOf(Some(m)) == NoCase(List([]));
  }

  /** Outside those two cases the intended and the written behaviour agree. */
  lemma ProcessAgreesAsWritten(s: QueryStore, decoded: Option<PhpValue>, storeFails: bool)
    requires var r := RouteOf(decoded);
      (r.UpsertRow? || r.DeleteRow? ==> IsArray(r.data)) && (r.NoCase? ==> !IsArray(r.action))
    ensures Process(s, decoded, storeFails) == ProcessAsWritten(s, decoded, storeFails)
  {
  }

  /** A message well-formed for a handler: an object with `table`, `action` and array `data`. */
  function Message(table: string, action: string, data: map<string, PhpValue>): PhpValue
  {
    Assoc(map["table" := Str(table), "action" := Str(action), "data" := Assoc(data)])
  }

  /** A message that cannot be decoded, or lacks `action` or `data`, is requeued and changes nothing. */
  lemma MalformedRequeued(s: QueryStore, decoded: Option<PhpValue>, storeFails: bool)
    requires decoded.None? || !IsSet(decoded.value, "action") || !IsSet(decoded.value, "data")
    ensures Process(s, decoded, storeFails) == Step(Requeue, s)
  {
  }

  /** Where a well-formed message goes: its table picks the target, its action the handler. */
  lemma MessageRoute(table: string, action: string, data: map<string, PhpValue>)
    ensures var r := RouteOf(Some(Message(table, action, data)));
      && (table != "categories" && table != "products" ==> r == UnknownTable)
      && (table == "categories" || table == "products" ==>
            var target := if table == "categories" then Categories else Products;
            r == (if action == "create" || action == "update" then UpsertRow(target, Assoc(data))
                  else if action == "delete" then DeleteRow(target, Assoc(data))
                  else if target == Categories then UnknownAction
                  else NoCase(Str(action))))
  {
    var m := Message(table, action, data).entries;
    assert m["action"] == Str(action) && m["data"] == Assoc(data) && m["table"] == Str(table);
  }

  /** An unknown table is requeued; an unknown action on `categories` is requeued,
      while on `products` it is acked; neither changes anything. */
  lemma UnknownTableOrAction(s: QueryStore, table: string, action: string, data: map<string, PhpValue>, storeFails: bool)
    requires table != "categories" && table != "products"
    requires action != "create" && action != "update" && action != "delete"
    ensures Process(s, Some(Message(table, action, data)), storeFails) == Step(Requeue, s)
    ensures Process(s, Some(Message("categories", action, data)), storeFails) == Step(Requeue, s)
    ensures Process(s, Some(Message("products", action, data)), storeFails) == Step(Ack, s)
  {
    MessageRoute(table, action, data);
    MessageRoute("categories", action, data);
    MessageRoute("products", action, data);
  }

  /** `create` and `update` are handled identically. */
  lemma CreateIsUpdate(s: QueryStore, table: string, data: map<string, PhpValue>, storeFails: bool)
    ensures Process(s, Some(Message(table, "create", data)), storeFails) == Process(s, Some(Message(table, "update", data)), storeFails)
  {
    MessageRoute(table, "create", data);
    MessageRoute(table, "update", data);
  }

  /** A successful upsert: the row keyed `data.id` holds every field of `data`, no
      other row of either table changes, and the message is acked. */
  lemma UpsertEffect(s: QueryStore, table: string, action: string, data: map<string, PhpValue>)
    requires table == "categories" || table == "products"
    requires action == "create" || action == "update"
    requires "name" in data && !data["name"].Null? && "id" in data && !data["id"].Null?
    ensures var target := if table == "categories" then Categories else Products;
      var r := Process(s, Some(Message(table, action, data)), false);
      && r.outcome == Ack
      && r.store == WithTable(s, target, Upsert(TableOf(s, target), data))
      && (forall c :: c in data ==> TableOf(r.store, target)[data["id"]][c] == data[c])
  {
    MessageRoute(table, action, data);
  }

  /** An upsert whose `data` has no `name` is requeued and changes nothing. */
  lemma UpsertNeedsName(s: QueryStore, table: string, action: string, data: map<string, PhpValue>, storeFails: bool)
    requires action == "create" || action == "update"
    requires "name" !in data || data["name"].Null?
    ensures Process(s, Some(Message(table, action, data)), storeFails) == Step(Requeue, s)
  {
    MessageRoute(table, action, data);
  }

  /** A successful delete leaves no row with that id and every other row as it was;
      deleting an absent id changes nothing and is still acked. A delete without `id` is requeued. */
  lemma DeleteEffect(s: QueryStore, table: string, data: map<string, PhpValue>)
    requires table == "categories" || table == "products"
    ensures var target := if table == "categories" then Categories else Products;
      var r := Process(s, Some(Message(table, "delete", data)), false);
      if "id" in data && !data["id"].Null? then
        && r.outcome == Ack
        && r.store == WithTable(s, target, Delete(TableOf(s, target), data["id"]))
        && data["id"] !in TableOf(r.store, target)
        && (data["id"] !in TableOf(s, target) ==> r.store == s)
      else r == Step(Requeue, s)
  {
    MessageRoute(table, "delete", data);
    var target := if table == "categories" then Categories else Products;
    if "id" in data && data["id"] !in TableOf(s, target) {
      assert Delete(TableOf(s, target), data["id"]) == TableOf(s, target);
    }
  }

  /** A delivery either runs its handler to completion or leaves the store alone. */
  lemma ProcessEffect(s: QueryStore, decoded: Option<PhpValue>, storeFails: bool)
    ensures var route := RouteOf(decoded);
      var r := Process(s, decoded, storeFails);
      if (route.UpsertRow? || route.DeleteRow?) && IsArray(route.data) && HandlerResult(s, route, storeFails).Some? then
        r == Step(Ack, WithTable(s, route.target, HandlerResult(s, route, storeFails).value))
      else r.store == s
  {
  }

  /** Upserting the same data twice has the effect of upserting it once. */
  lemma UpsertIdempotent(t: QueryTable, d: map<string, PhpValue>)
    requires "id" in d
    ensures Upsert(Upsert(t, d), d) == Upsert(t, d)
  {
    var t1 := Upsert(t, d);
    assert t1[d["id"]] + d == t1[d["id"]];
  }

  /** Applying the same message twice has the effect of applying it once. */
  lemma {:induction false} ProcessIdempotent(s: QueryStore, decoded: Option<PhpValue>)
    ensures var once := Process(s, decoded, false);
      Process(once.store, decoded, false).store == once.store
  {
    var route := RouteOf(decoded);
    var once := Process(s, decoded, false);
    ProcessEffect(s, decoded, false);
    ProcessEffect(once.store, decoded, false);
    if (route.UpsertRow? || route.DeleteRow?) && IsArray(route.data) && HandlerResult(s, route, false).Some? {
      var t := TableOf(s, route.target);
      if route.UpsertRow? {
        UpsertIdempotent(t, route.data.entries);
      } else {
        assert Delete(Delete(t, route.data.entries["id"]), route.data.entries["id"]) == Delete(t, route.data.entries["id"]);
      }
    }
  }

  /** An upsert keeps every row under its own id. */
  lemma UpsertKeepsKeys(t: QueryTable, d: map<string, PhpValue>)
    requires KeyedById(t) && "id" in d
    ensures KeyedById(Upsert(t, d))
  {
  }

  /** The projection keeps every row under its own id. */
  lemma ProcessKeepsKeys(s: QueryStore, decoded: Option<PhpValue>, storeFails: bool)
    requires KeyedById(s.categories) && KeyedById(s.products)
    ensures var r := Process(s, decoded, storeFails).store;
      KeyedById(r.categories) && KeyedById(r.products)
  {
    var route := RouteOf(decoded);
    ProcessEffect(s, decoded, storeFails);
    if (route.UpsertRow? || route.DeleteRow?) && IsArray(route.data) && HandlerResult(s, route, storeFails).Some? && route.UpsertRow? {
      UpsertKeepsKeys(TableOf(s, route.target), route.data.entries);
    }
  }

  /** The consumer: its broker connection and the query database it writes. */
  class Consumer {
    var connected: bool
    var categories: QueryTable
    var products: QueryTable

    constructor (categories: QueryTable, products: QueryTable)
      ensures !connected && this.categories == categories && this.products == products
    {
      connected := false;
      this.categories := categories;
      this.products := products;
    }

    /** Attempt `i` connects when `connects[i]` is true; missing entries fail. */
    static predicate Connects(connects: seq<bool>, i: nat)
    {
      i < |connects| && connects[i]
    }

    /** `initializeConnection`: returns on the first successful attempt, sleeps
        `RetryDelay` seconds between attempts, and gives up (throws) after `MaxRetries`. */
    method InitializeConnection(connects: seq<bool>) returns (attempts: nat, slept: nat)
      modifies this
      ensures 1 <= attempts <= MaxRetries
      ensures slept == RetryDelay * (attempts - 1)
      ensures forall i :: 0 <= i < attempts - 1 ==> !Connects(connects, i)
      ensures connected <==> Connects(connects, attempts - 1)
      ensures !connected ==> attempts == MaxRetries
      ensures categories == old(categories) && products == old(products)
    {
      var retries: nat := 0;
      slept := 0;
      connected := false;
      while retries < MaxRetries
        invariant retries <= MaxRetries
        invariant slept == RetryDelay * (if retries < MaxRetries then retries else retries - 1)
        invariant forall i :: 0 <= i < retries ==> !Connects(connects, i)
        invariant !connected
        invariant categories == old(categories) && products == old(products)
        decreases MaxRetries - retries
      {
        if Connects(connects, retries) {
          connected := true;
          attempts := retries + 1;
          return;
        }
        retries := retries + 1;
        if retries < MaxRetries {
          slept := slept + RetryDelay;
        }
      }
      attempts := MaxRetries;
    }

    /** `insertOrUpdateCategory` / `insertOrUpdateProduct`: `ok` is false when it throws. */
    method InsertOrUpdate(target: Target, data: PhpValue, storeFails: bool) returns (ok: bool)
      requires IsArray(data)
      modifies this
      ensures var r := UpsertHandler(TableOf(QueryStore(old(categories), old(products)), target), data, storeFails);
        ok == r.Some? && QueryStore(categories, products) ==
          (if ok then WithTable(QueryStore(old(categories), old(products)), target, r.value) else QueryStore(old(categories), old(products)))
      ensures connected == old(connected)
    {
      if !IsSet(data, "name") || !IsSet(data, "id") || storeFails {
        return false;
      }
      if target == Categories {
        categories := Upsert(categories, data.entries);
      } else {
        products := Upsert(products, data.entries);
      }
      ok := true;
    }

    /** `deleteCategory` / `deleteProduct`: `ok` is false when it throws. */
    method DeleteRow(target: Target, data: PhpValue, storeFails: bool) returns (ok: bool)
      requires IsArray(data)
      modifies this
      ensures var r := DeleteHandler(TableOf(QueryStore(old(categories), old(products)), target), data, storeFails);
        ok == r.Some? && QueryStore(categories, products) ==
          (if ok then WithTable(QueryStore(old(categories), old(products)), target, r.value) else QueryStore(old(categories), old(products)))
      ensures connected == old(connected)
    {
      if !IsSet(data, "id") || storeFails {
        return false;
      }
      if target == Categories {
        categories := Delete(categories, data.entries["id"]);
      } else {
        products := Delete(products, data.entries["id"]);
      }
      ok := true;
    }

    /** `processMessage`, with every failure rejected and one acknowledgement per delivery. */
    method ProcessMessage(decoded: Option<PhpValue>, storeFails: bool) returns (outcome: Outcome)
      modifies this
      ensures Step(outcome, QueryStore(categories, products)) == Process(QueryStore(old(categories), old(products)), decoded, storeFails)
      ensures connected == old(connected)
    {
      var route := RouteOf(decoded);
      if route.Malformed? || route.UnknownTable? || route.UnknownAction? {
        return Requeue;
      }
      if route.NoCase? {
        return Ack;
      }
      if !IsArray(route.data) {
        return Requeue;
      }
      var ok;
      if route.UpsertRow? {
        ok := InsertOrUpdate(route.target, route.data, storeFails);
      } else {
        ok := DeleteRow(route.target, route.data, storeFails);
      }
      outcome := if ok then Ack else Requeue;
    }
  }
}
