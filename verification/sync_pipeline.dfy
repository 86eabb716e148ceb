/** The CQRS pipeline end to end: the primary `categories` table, the events its
    controller publishes on `data_sync`, and the query database the consumer
    builds from them. While every publish succeeds, replaying the published
    events keeps the query `categories` table equal to the projection of the
    primary's active rows; a failed publish after `destroy`'s commit, and every
    product write, leave the two apart. */
module SyncPipeline {
  import opened Common
  import opened Schema
  import opened PrimaryDatabase
  import opened RabbitMQConsumer
  import CategoriesController
  import ProductsController
  import ProductRequest
  import Postgres

  /** The consumer applying `events` in order, each delivery succeeding. */
  function Replay(s: QueryStore, events: seq<PhpValue>): QueryStore
    decreases |events|
  {
    if events == [] then s else Replay(Process(s, Some(events[0]), false).store, events[1..])
  }

  /** What the query table should hold: one row per active category, as its events carry it. */
  function Projection(t: CategoryTable): QueryTable
  {
    map id | id in t && t[id].Active() :: Str(id) := QueryRowOf(id, t[id])
  }

  /** The query row of a category: the columns its `create` and `update` events carry. */
  function QueryRowOf(id: Id, row: CategoryRow): QueryRow
  {
    CategoriesController.EventData(id, row).entries
  }

  /** The projection keeps every query row under its own id, as the consumer requires. */
  lemma ProjectionKeyedById(t: CategoryTable)
    ensures KeyedById(Projection(t))
  {
    var q := Projection(t);
    forall k | k in q
      ensures "id" in q[k] && q[k]["id"] == k
    {
      var id :| id in t && t[id].Active() && Str(id) == k;
    }
  }

  /** Replaying one category `create` or `update` event upserts its data. */
  lemma ReplayUpsert(s: QueryStore, action: string, id: Id, row: CategoryRow)
    requires action == "create" || action == "update"
    ensures Replay(s, [CategoriesController.Event(action, CategoriesController.EventData(id, row))])
      == s.(categories := Upsert(s.categories, QueryRowOf(id, row)))
  {
    var data := CategoriesController.EventData(id, row);
    var e := CategoriesController.Event(action, data);
    assert e.entries["action"] == Str(action) && e.entries["data"] == data && e.entries["table"] == Str("categories");
    assert data.entries["name"] == Str(row.name) && data.entries["id"] == Str(id);
    assert RouteOf(Some(e)) == UpsertRow(Categories, data);
    assert [e][1..] == [];
  }

  /** Replaying one category `delete` event removes its row. */
  lemma ReplayDelete(s: QueryStore, id: Id)
    ensures Replay(s, [CategoriesController.DeletedEvent(id)]) == s.(categories := Delete(s.categories, Str(id)))
  {
    var data := Assoc(map["id" := Str(id)]);
    var e := CategoriesController.DeletedEvent(id);
    assert e.entries["action"] == Str("delete") && e.entries["data"] == data && e.entries["table"] == Str("categories");
    assert RouteOf(Some(e)) == DeleteRow(Categories, data);
    assert [e][1..] == [];
  }

  /** The projected row of one category after a write is the one expected. */
  lemma ProjectionPutRow(t: CategoryTable, id: Id, row: CategoryRow, j: Id)
    requires row.Active() && j in t[id := row] && t[id := row][j].Active()
    ensures var expected := Projection(t)[Str(id) := QueryRowOf(id, row)];
      Str(j) in expected && Projection(t[id := row])[Str(j)] == expected[Str(j)]
  {
    if j != id {
      assert Str(j) in Projection(t);
    }
  }

  /** Every row of the projection after a write is the one expected. */
  lemma ProjectionPutCovers(t: CategoryTable, id: Id, row: CategoryRow)
    requires row.Active()
    ensures var after := Projection(t[id := row]);
      var expected := Projection(t)[Str(id) := QueryRowOf(id, row)];
      forall k :: k in after ==> k in expected && after[k] == expected[k]
  {
    var t1 := t[id := row];
    forall k | k in Projection(t1)
      ensures k in Projection(t)[Str(id) := QueryRowOf(id, row)]
      ensures Projection(t1)[k] == Projection(t)[Str(id) := QueryRowOf(id, row)][k]
    {
      var j :| j in t1 && t1[j].Active() && k == Str(j);
      ProjectionPutRow(t, id, row, j);
    }
  }

  /** Every expected row is in the projection after a write. */
  lemma ProjectionPutReaches(t: CategoryTable, id: Id, row: CategoryRow)
    requires row.Active()
    ensures var after := Projection(t[id := row]);
      forall k :: k in Projection(t)[Str(id) := QueryRowOf(id, row)] ==> k in after
  {
    var t1 := t[id := row];
    forall k | k in Projection(t)[Str(id) := QueryRowOf(id, row)]
      ensures k in Projection(t1)
    {
      if k != Str(id) {
        var j :| j in t && t[j].Active() && k == Str(j);
        assert j in t1 && t1[j].Active();
      }
    }
  }

  /** Writing an active row into the primary writes its query row into the projection. */
  lemma ProjectionPut(t: CategoryTable, id: Id, row: CategoryRow)
    requires row.Active()
    ensures Projection(t[id := row]) == Projection(t)[Str(id) := QueryRowOf(id, row)]
  {
    ProjectionPutCovers(t, id, row);
    ProjectionPutReaches(t, id, row);
  }

  /** Soft-deleting a row of the primary drops it from the projection. */
  lemma ProjectionDrop(t: CategoryTable, id: Id, row: CategoryRow)
    requires !row.Active()
    ensures Projection(t[id := row]) == Projection(t) - {Str(id)}
  {
    var t1 := t[id := row];
    forall k | k in Projection(t) - {Str(id)}
      ensures k in Projection(t1)
    {
      var j :| j in t && t[j].Active() && k == Str(j);
      assert j in t1 && t1[j].Active();
    }
  }

  /** An upsert either adds the row or, when the row has exactly the columns of
      the data, replaces it: in both cases the row becomes the data. */
  lemma UpsertReplaces(q: QueryTable, data: QueryRow)
    requires "id" in data
    requires data["id"] in q ==> q[data["id"]].Keys == data.Keys
    ensures Upsert(q, data) == q[data["id"] := data]
  {
    var key := data["id"];
    if key in q {
      assert q[key] + data == data;
    }
  }

  /** Upserting an active row's event data into the projection gives the
      projection of the primary with that row written. */
  lemma ProjectionUpsert(t: CategoryTable, id: Id, row: CategoryRow)
    requires row.Active() && (id in t ==> t[id].Active())
    ensures Upsert(Projection(t), QueryRowOf(id, row)) == Projection(t[id := row])
  {
    var data := QueryRowOf(id, row);
    assert data["id"] == Str(id);
    UpsertReplaces(Projection(t), data);
    ProjectionPut(t, id, row);
  }

  /** A successful `store` publishes the `create` event that adds the new row. */
  lemma StoreCreatedKeepsSync(t: CategoryTable, products: QueryTable, name: string, newId: Id, now: Instant)
    requires !CategoryNameTaken(t, name, None) && newId !in t
    ensures var o := CategoriesController.StoreOutcome(t, name, newId, now, false);
      Replay(QueryStore(Projection(t), products), o.events) == QueryStore(Projection(o.categories), products)
  {
    var o := CategoriesController.StoreOutcome(t, name, newId, now, false);
    var row := CategoryRow(name, now, now, None);
    assert o.events == [CategoriesController.Event("create", CategoriesController.EventData(newId, row))]
      && o.categories == t[newId := row];
    ReplayUpsert(QueryStore(Projection(t), products), "create", newId, row);
    ProjectionUpsert(t, newId, row);
  }

  /** `store` keeps the query table in step with the primary. */
  lemma StoreKeepsSync(t: CategoryTable, products: QueryTable, name: string, newId: Id, now: Instant, publishFails: bool)
    ensures var o := CategoriesController.StoreOutcome(t, name, newId, now, publishFails);
      Replay(QueryStore(Projection(t), products), o.events) == QueryStore(Projection(o.categories), products)
  {
    if !CategoryNameTaken(t, name, None) && newId !in t && !publishFails {
      StoreCreatedKeepsSync(t, products, name, newId, now);
    } else {
      var o := CategoriesController.StoreOutcome(t, name, newId, now, publishFails);
      assert o.events == [] && o.categories == t;
    }
  }

  /** `update` keeps the query table in step with the primary, the name unchanged or not. */
  lemma UpdateKeepsSync(t: CategoryTable, products: QueryTable, id: string, name: string, now: Instant, publishFails: bool)
    ensures var o := CategoriesController.UpdateOutcome(t, id, name, now, publishFails);
      Replay(QueryStore(Projection(t), products), o.events) == QueryStore(Projection(o.categories), products)
  {
    var s := QueryStore(Projection(t), products);
    var o := CategoriesController.UpdateOutcome(t, id, name, now, publishFails);
    var found := Postgres.Find(t, id);
    if found.Found? && t[found.key].Active() && IsUuid(id) && !CategoryNameTaken(t, name, Some(found.key)) && !publishFails {
      var k := found.key;
      var row := CategoriesController.Renamed(t[k], name, now);
      assert o.events == [CategoriesController.Event("update", CategoriesController.EventData(k, row))]
        && o.categories == t[k := row];
      ReplayUpsert(s, "update", k, row);
      ProjectionUpsert(t, k, row);
    } else {
      assert o.events == [] && o.categories == t;
    }
  }

  /** A `destroy` whose publish succeeds keeps the query table in step. */
  lemma DestroyKeepsSync(t: CategoryTable, products: QueryTable, id: string, now: Instant)
    ensures var o := CategoriesController.DestroyOutcome(t, id, now, false);
      Replay(QueryStore(Projection(t), products), o.events) == QueryStore(Projection(o.categories), products)
  {
    var s := QueryStore(Projection(t), products);
    var found := Postgres.Find(t, id);
    if found.Found? && t[found.key].Active() && IsUuid(id) {
      var k := found.key;
      var row := CategoriesController.SoftDeleted(t[k], now);
      assert CategoriesController.DestroyOutcome(t, id, now, false)
        == CategoriesController.Outcome(Response(204, Null), t[k := row], [CategoriesController.DeletedEvent(k)]);
      ReplayDelete(s, k);
      ProjectionDrop(t, k, row);
    } else {
      assert CategoriesController.DestroyOutcome(t, id, now, false).events == []
        && CategoriesController.DestroyOutcome(t, id, now, false).categories == t;
    }
  }

  /** A `destroy` whose publish fails has already committed the soft delete but
      sends no event, so the query table keeps a row the primary no longer shows. */
  lemma DestroyPublishFailureDiverges(t: CategoryTable, products: QueryTable, id: Id, now: Instant)
    requires CategoriesController.ValidTable(t) && id in t && t[id].Active()
    ensures var o := CategoriesController.DestroyOutcome(t, id, now, true);
      && o.response.code == 500
      && Str(id) in Replay(QueryStore(Projection(t), products), o.events).categories
      && Str(id) !in Projection(o.categories)
  {
    CategoriesController.DestroyPublishFailureKeepsDelete(t, id, now);
  }

  /** A product write never publishes: whatever the products handlers do to the
      primary, the `data_sync` queue is left as it was. The queue is in this
      method's frame, so the last postcondition rests on `Store`'s own frame, which
      names the primary database and nothing else. */
  method ProductStorePublishesNothing(pc: ProductsController.ProductsController, outbox: Outbox,
                                      f: ProductRequest.ProductFields, newId: Id, now: Instant)
    returns (response: Response)
    modifies pc.db, outbox
    ensures response == ProductsController.StoreOutcome(old(pc.db.products), old(pc.db.categories), f, newId, now).response
    ensures response.code == 201 ==> newId in pc.db.products && newId !in old(pc.db.products)
    ensures outbox.messages == old(outbox.messages)
  {
    response := pc.Store(f, newId, now);
    if response.code == 201 {
      ProductsController.StoreCreates(old(pc.db.products), old(pc.db.categories), f, newId, now);
    }
  }
}
