/** `CategoriesController`: `store`, `update` and `destroy` write the primary
    `categories` table inside a transaction and publish a change event to the
    `data_sync` queue; `store` and `update` publish before the commit, `destroy`
    after it. The handlers receive the name `CategoryRequest` has already
    accepted. */
module CategoriesController {
  import opened Common
  import opened Schema
  import opened PrimaryDatabase
  import Helpers
  import ApiResponse
  import Postgres

  /** What a handler returns, the table it leaves and the events it publishes. */
  datatype Outcome = Outcome(response: Response, categories: CategoryTable, events: seq<PhpValue>)

  /** The table's own invariant: the `id` column is `uuid`, so every key is a UUID
      in the form PostgreSQL prints it, and no two active categories share a name. */
  predicate ValidTable(t: CategoryTable)
  {
    && (forall id :: id in t ==> Postgres.Stored(id))
    && (forall a, b :: a in t && b in t && t[a].Active() && t[b].Active() && t[a].name == t[b].name ==> a == b)
  }

  /** The `data` of a `create` or `update` event. */
  function EventData(id: Id, row: CategoryRow): PhpValue
  {
    Assoc(map["id" := Str(id), "name" := Str(row.name), "created_at" := Int(row.createdAt), "updated_at" := Int(row.updatedAt)])
  }

  /** A message on `data_sync` for the `categories` table. */
  function Event(action: string, data: PhpValue): PhpValue
  {
    Assoc(map["action" := Str(action), "table" := Str("categories"), "data" := data])
  }

  function CreatedEvent(id: Id, row: CategoryRow): PhpValue
  {
    Event("create", EventData(id, row))
  }

  function UpdatedEvent(id: Id, row: CategoryRow): PhpValue
  {
    Event("update", EventData(id, row))
  }

  function DeletedEvent(id: Id): PhpValue
  {
    Event("delete", Assoc(map["id" := Str(id)]))
  }

  /** The category as the responses show it. */
  function Shown(id: Id, row: CategoryRow): PhpValue
  {
    Assoc(map["id" := Str(id), "name" := Str(row.name), "createdAt" := Int(Helpers.ToMilliseconds(row.createdAt))])
  }

  function NotFound(): Response
  {
    ApiResponse.ErrorResponse(Str("Category not found"), 404)
  }

  function InvalidUuid(): Response
  {
    ApiResponse.ErrorResponse(Assoc(map["id" := List([Str("Invalid UUID format")])]), 422)
  }

  function DuplicateName(): Response
  {
    ApiResponse.ErrorResponse(Assoc(map["name" := List([Str("Nama kategori sudah digunakan")])]), 422)
  }

  /** The catch block's answer: `what` is "create", "update" or "delete". */
  function Failed(what: string): Response
  {
    ApiResponse.ErrorResponse(Str("Failed to " + what + " category"), 500)
  }

  /** `store`. `newId` is the UUID `HasUuids` generates for the new row, `now` the
      clock, `publishFails` whether the broker connection fails. */
  function StoreOutcome(t: CategoryTable, name: string, newId: Id, now: Instant, publishFails: bool): (o: Outcome)
  {
    if CategoryNameTaken(t, name, None) then
      Outcome(DuplicateName(), t, [])
    else if newId in t || publishFails then
      Outcome(Failed("create"), t, [])
    else
      var row := CategoryRow(name, now, now, None);
      Outcome(
        ApiResponse.SuccessResponse(Shown(newId, row), Str("Category created successfully"), 201),
        t[newId := row],
        [CreatedEvent(newId, row)])
  }

  /** The row `update` leaves: Eloquent writes (and touches `updated_at`) only when the name changes. */
  function Renamed(row: CategoryRow, name: string, now: Instant): CategoryRow
  {
    if name == row.name then row else row.(name := name, updatedAt := now)
  }

  /** `update`. `Category::find($id)` casts the path's id to `uuid`: text that is
      not `uuid` input makes the query raise, answered 500; any spelling of an
      existing id finds the row, whose own key the answer and the event carry. */
  function UpdateOutcome(t: CategoryTable, id: string, name: string, now: Instant, publishFails: bool): (o: Outcome)
  {
    match Postgres.Find(t, id)
    case CastFails => Outcome(Failed("update"), t, [])
    case Missing => Outcome(NotFound(), t, [])
    case Found(k) =>
      if !t[k].Active() then
        Outcome(NotFound(), t, [])
      else if !IsUuid(id) then
        Outcome(InvalidUuid(), t, [])
      else if CategoryNameTaken(t, name, Some(k)) then
        Outcome(DuplicateName(), t, [])
      else if publishFails then
        Outcome(Failed("update"), t, [])
      else
        var row := Renamed(t[k], name, now);
        Outcome(
          ApiResponse.SuccessResponse(Assoc(map["data" := Shown(k, row)]), Str("Category updated successfully")),
          t[k := row],
          [UpdatedEvent(k, row)])
  }

  /** The row a soft delete leaves: `deleted_at` and `updated_at` set to now. */
  function SoftDeleted(row: CategoryRow, now: Instant): CategoryRow
  {
    row.(deletedAt := Some(now), updatedAt := now)
  }

  /** `destroy`: the soft delete is committed before the publish, so a failed
      publish answers 500 over a row that is already deleted. */
  function DestroyOutcome(t: CategoryTable, id: string, now: Instant, publishFails: bool): (o: Outcome)
  {
    match Postgres.Find(t, id)
    case CastFails => Outcome(Failed("delete"), t, [])
    case Missing => Outcome(NotFound(), t, [])
    case Found(k) =>
      if !t[k].Active() then
        Outcome(NotFound(), t, [])
      else if !IsUuid(id) then
        Outcome(InvalidUuid(), t, [])
      else
        var deleted := t[k := SoftDeleted(t[k], now)];
        if publishFails then
          Outcome(Failed("delete"), deleted, [])
        else
          Outcome(Response(204, Null), deleted, [DeletedEvent(k)])
  }

  class CategoriesController {
    const db: Database
    const outbox: Outbox

    constructor (db: Database, outbox: Outbox)
      ensures this.db == db && this.outbox == outbox
    {
      this.db := db;
      this.outbox := outbox;
    }

    method Store(name: string, newId: Id, now: Instant, publishFails: bool) returns (response: Response)
      modifies db, outbox
      ensures var o := StoreOutcome(old(db.categories), name, newId, now, publishFails);
        && response == o.response && db.categories == o.categories
        && outbox.messages == old(outbox.messages) + o.events
      ensures db.products == old(db.products)
    {
      var snapshot := db.categories; // DB::beginTransaction
      if CategoryNameTaken(db.categories, name, None) {
        db.categories := snapshot; // DB::rollBack
        return DuplicateName();
      }
      if newId in db.categories {
        // the insert violates the primary key; the catch rolls back
        db.categories := snapshot;
        return Failed("create");
      }
      var row := CategoryRow(name, now, now, None);
      db.categories := db.categories[newId := row];
      var published := outbox.Publish(CreatedEvent(newId, row), publishFails);
      if !published {
        db.categories := snapshot;
        return Failed("create");
      }
      // DB::commit
      response := ApiResponse.SuccessResponse(Shown(newId, row), Str("Category created successfully"), 201);
    }

    method Update(id: string, name: string, now: Instant, publishFails: bool) returns (response: Response)
      modifies db, outbox
      ensures var o := UpdateOutcome(old(db.categories), id, name, now, publishFails);
        && response == o.response && db.categories == o.categories
        && outbox.messages == old(outbox.messages) + o.events
      ensures db.products == old(db.products)
    {
      var found := Postgres.Find(db.categories, id);
      if found.CastFails? {
        // the query raises; the catch answers
        return Failed("update");
      }
      if found.Missing? || !db.categories[found.key].Active() {
        return NotFound();
      }
      if !IsUuid(id) {
        return InvalidUuid();
      }
      var k := found.key;
      var snapshot := db.categories; // DB::beginTransaction
      if CategoryNameTaken(db.categories, name, Some(k)) {
        db.categories := snapshot;
        return DuplicateName();
      }
      var row := Renamed(db.categories[k], name, now);
      db.categories := db.categories[k := row];
      var published := outbox.Publish(UpdatedEvent(k, row), publishFails);
      if !published {
        db.categories := snapshot;
        return Failed("update");
      }
      // DB::commit
      response := ApiResponse.SuccessResponse(Assoc(map["data" := Shown(k, row)]), Str("Category updated successfully"));
    }

    method Destroy(id: string, now: Instant, publishFails: bool) returns (response: Response)
      modifies db, outbox
      ensures var o := DestroyOutcome(old(db.categories), id, now, publishFails);
        && response == o.response && db.categories == o.categories
        && outbox.messages == old(outbox.messages) + o.events
      ensures db.products == old(db.products)
    {
      var found := Postgres.Find(db.categories, id);
      if found.CastFails? {
        return Failed("delete");
      }
      if found.Missing? || !db.categories[found.key].Active() {
        return NotFound();
      }
      if !IsUuid(id) {
        return InvalidUuid();
      }
      var k := found.key;
      // DB::beginTransaction; delete; DB::commit
      db.categories := db.categories[k := SoftDeleted(db.categories[k], now)];
      var published := outbox.Publish(DeletedEvent(k), publishFails);
      if !published {
        // DB::rollBack after the commit has nothing to undo
        return Failed("delete");
      }
      response := Response(204, Null);
    }
  }

  /** A name held by an active category is refused with `errors.name`; nothing is written or published. */
  lemma StoreRejectsDuplicate(t: CategoryTable, name: string, newId: Id, now: Instant, publishFails: bool)
    requires CategoryNameTaken(t, name, None)
    ensures var o := StoreOutcome(t, name, newId, now, publishFails);
      o.response.code == 422 && o.response.body.entries["errors"] == Assoc(map["name" := List([Str("Nama kategori sudah digunakan")])])
      && o.categories == t && o.events == []
  {
  }

  /** A successful store adds exactly one active row with the name and publishes one `create` event. */
  lemma StoreCreates(t: CategoryTable, name: string, newId: Id, now: Instant)
    requires !CategoryNameTaken(t, name, None) && newId !in t
    ensures var o := StoreOutcome(t, name, newId, now, false);
      && o.response.code == 201
      && o.categories.Keys == t.Keys + {newId}
      && (forall id :: id in t ==> o.categories[id] == t[id])
      && o.categories[newId].name == name && o.categories[newId].Active()
      && o.events == [Event("create", Assoc(map[
           "id" := Str(newId), "name" := Str(name), "created_at" := Int(now), "updated_at" := Int(now)]))]
  {
  }

  /** Publishing before the commit makes `store` and `update` all-or-nothing:
      the table changes exactly when one event is published. */
  lemma StoreIsAtomic(t: CategoryTable, id: Id, name: string, now: Instant, publishFails: bool)
    ensures var o := StoreOutcome(t, name, id, now, publishFails);
      (o.events == [] ==> o.categories == t) && |o.events| <= 1 && (o.events != [] <==> o.response.code == 201)
    ensures publishFails ==> StoreOutcome(t, name, id, now, true).categories == t
  {
  }

  lemma UpdateIsAtomic(t: CategoryTable, id: Id, name: string, now: Instant, publishFails: bool)
    ensures var o := UpdateOutcome(t, id, name, now, publishFails);
      (o.events == [] ==> o.categories == t) && |o.events| <= 1 && (o.events != [] <==> o.response.code == 200)
    ensures publishFails ==> UpdateOutcome(t, id, name, now, true).categories == t
  {
  }

  /** `update` and `destroy` answer 404 when no active category has the id's
      `uuid` value, before looking at the id's format, and touch nothing. */
  lemma NotFoundComesFirst(t: CategoryTable, id: string, name: string, now: Instant, publishFails: bool)
    requires Postgres.PgUuid(id).Some?
    requires forall k :: k in t && t[k].Active() ==> Postgres.PgUuid(k) != Postgres.PgUuid(id)
    ensures UpdateOutcome(t, id, name, now, publishFails) == Outcome(NotFound(), t, [])
    ensures DestroyOutcome(t, id, now, publishFails) == Outcome(NotFound(), t, [])
  {
  }

  /** An id that is not `uuid` input makes `find` raise: both handlers answer 500
      and touch nothing. */
  lemma CastFailureAnswers500(t: CategoryTable, id: string, name: string, now: Instant, publishFails: bool)
    requires Postgres.PgUuid(id).None?
    ensures UpdateOutcome(t, id, name, now, publishFails) == Outcome(Failed("update"), t, [])
    ensures DestroyOutcome(t, id, now, publishFails) == Outcome(Failed("delete"), t, [])
    ensures Failed("update").code == 500 && Failed("delete").code == 500
  {
  }

  /** Two spellings of one `uuid` value that `Str::isUuid` judges alike get the
      same answer and leave the same table and events. */
  lemma SpellingIrrelevant(t: CategoryTable, a: string, b: string, name: string, now: Instant, publishFails: bool)
    requires Postgres.PgUuid(a) == Postgres.PgUuid(b) && IsUuid(a) == IsUuid(b)
    ensures UpdateOutcome(t, a, name, now, publishFails) == UpdateOutcome(t, b, name, now, publishFails)
    ensures DestroyOutcome(t, a, now, publishFails) == DestroyOutcome(t, b, now, publishFails)
  {
    Postgres.FindBySameValue(t, a, b);
  }

  /** An existing id written in capitals is the same id. */
  lemma UpperCaseIdFound(t: CategoryTable, id: string, name: string, now: Instant, publishFails: bool)
    requires IsUuid(id)
    ensures UpdateOutcome(t, Postgres.UpperText(id), name, now, publishFails) == UpdateOutcome(t, id, name, now, publishFails)
    ensures DestroyOutcome(t, Postgres.UpperText(id), now, publishFails) == DestroyOutcome(t, id, now, publishFails)
  {
    Postgres.UuidIgnoresCase(id);
    Postgres.UpperKeepsUuid(id);
    SpellingIrrelevant(t, Postgres.UpperText(id), id, name, now, publishFails);
  }

  /** Renaming a category to its current name succeeds and leaves the table as it was. */
  lemma {:induction false} UpdateToOwnName(t: CategoryTable, id: Id, now: Instant)
    requires ValidTable(t) && id in t && t[id].Active()
    ensures var o := UpdateOutcome(t, id, t[id].name, now, false);
      o.response.code == 200 && o.categories == t && o.events == [UpdatedEvent(id, t[id])]
  {
    assert Postgres.Stored(id);
    Postgres.FindStored(t, id);
    Postgres.StoredIsUuid(id);
    assert !CategoryNameTaken(t, t[id].name, Some(id));
    assert Renamed(t[id], t[id].name, now) == t[id];
    assert t[id := t[id]] == t;
  }

  /** A successful update rewrites only the name (and `updated_at`) of the row the
      id's `uuid` value finds, publishes the full row, and answers with it under
      `data.data`, under the row's own key. */
  lemma UpdateChangesOnlyName(t: CategoryTable, id: string, name: string, now: Instant)
    requires UpdateOutcome(t, id, name, now, false).response.code == 200
    ensures Postgres.Find(t, id).Found? && IsUuid(id)
    ensures var k := Postgres.Find(t, id).key;
      var o := UpdateOutcome(t, id, name, now, false);
      && Postgres.PgUuid(k) == Postgres.PgUuid(id)
      && o.categories.Keys == t.Keys
      && (forall j :: j in t && j != k ==> o.categories[j] == t[j])
      && o.categories[k].name == name
      && o.categories[k].createdAt == t[k].createdAt && o.categories[k].deletedAt == t[k].deletedAt
      && o.events == [UpdatedEvent(k, o.categories[k])]
      && o.response.body.entries["data"] == Assoc(map["data" := Shown(k, o.categories[k])])
  {
    assert NotFound().code == 404 && InvalidUuid().code == 422 && DuplicateName().code == 422 && Failed("update").code == 500;
  }

  /** A successful destroy keeps the row, flagged deleted, answers 204 and then publishes `delete` with only the id. */
  lemma DestroySoftDeletes(t: CategoryTable, id: Id, now: Instant)
    requires ValidTable(t) && id in t && t[id].Active()
    ensures var o := DestroyOutcome(t, id, now, false);
      && o.response == Response(204, Null)
      && o.categories.Keys == t.Keys && !o.categories[id].Active() && o.categories[id].name == t[id].name
      && (forall j :: j in t && j != id ==> o.categories[j] == t[j])
      && o.events == [Event("delete", Assoc(map["id" := Str(id)]))]
  {
    Postgres.FindStored(t, id);
    Postgres.StoredIsUuid(id);
  }

  /** The publish in `destroy` comes after the commit: when it fails the answer is
      500, yet the row stays soft-deleted and no event tells the consumer. */
  lemma DestroyPublishFailureKeepsDelete(t: CategoryTable, id: Id, now: Instant)
    requires ValidTable(t) && id in t && t[id].Active()
    ensures var o := DestroyOutcome(t, id, now, true);
      o.response.code == 500 && !o.categories[id].Active() && o.events == []
  {
    Postgres.FindStored(t, id);
    Postgres.StoredIsUuid(id);
  }

  /** Every handler keeps the table's invariant. */
  lemma StorePreservesValid(t: CategoryTable, name: string, newId: Id, now: Instant, publishFails: bool)
    requires ValidTable(t) && Postgres.Stored(newId)
    ensures ValidTable(StoreOutcome(t, name, newId, now, publishFails).categories)
  {
    if !CategoryNameTaken(t, name, None) {
      assert forall b :: b in t && t[b].Active() ==> t[b].name != name;
    }
  }

  lemma UpdatePreservesValid(t: CategoryTable, id: string, name: string, now: Instant, publishFails: bool)
    requires ValidTable(t)
    ensures ValidTable(UpdateOutcome(t, id, name, now, publishFails).categories)
  {
    var found := Postgres.Find(t, id);
    if found.Found? && !CategoryNameTaken(t, name, Some(found.key)) {
      RenameKeepsValid(t, found.key, name, now);
    }
  }

  /** Renaming a row to a name no other active row holds keeps the keys and the names unique. */
  lemma RenameKeepsValid(t: CategoryTable, k: Id, name: string, now: Instant)
    requires ValidTable(t) && k in t && !CategoryNameTaken(t, name, Some(k))
    ensures ValidTable(t[k := Renamed(t[k], name, now)])
  {
    var t2 := t[k := Renamed(t[k], name, now)];
    assert t2.Keys == t.Keys;
    forall a, b | a in t2 && b in t2 && t2[a].Active() && t2[b].Active() && t2[a].name == t2[b].name
      ensures a == b
    {
      if a != k && b != k {
        assert t2[a] == t[a] && t2[b] == t[b];
      }
    }
  }

  lemma DestroyPreservesValid(t: CategoryTable, id: string, now: Instant, publishFails: bool)
    requires ValidTable(t)
    ensures ValidTable(DestroyOutcome(t, id, now, publishFails).categories)
  {
    var found := Postgres.Find(t, id);
    if found.Found? {
      SoftDeleteKeepsValid(t, found.key, now);
    }
  }

  /** Soft-deleting a row keeps the keys and frees its name. */
  lemma SoftDeleteKeepsValid(t: CategoryTable, k: Id, now: Instant)
    requires ValidTable(t) && k in t
    ensures ValidTable(t[k := SoftDeleted(t[k], now)])
  {
    var t2 := t[k := SoftDeleted(t[k], now)];
    assert t2.Keys == t.Keys;
    forall a, b | a in t2 && b in t2 && t2[a].Active() && t2[b].Active() && t2[a].name == t2[b].name
      ensures a == b
    {
      assert t2[a] == t[a] && t2[b] == t[b];
    }
  }

  /** The "Invalid UUID format" branch is reached: the braced spelling of an
      active category's id is found by `find`, then refused by `Str::isUuid`. */
  lemma BracedIdRejected(t: CategoryTable, id: Id, name: string, now: Instant, publishFails: bool)
    requires ValidTable(t) && id in t && t[id].Active()
    ensures UpdateOutcome(t, "{" + id + "}", name, now, publishFails) == Outcome(InvalidUuid(), t, [])
    ensures DestroyOutcome(t, "{" + id + "}", now, publishFails) == Outcome(InvalidUuid(), t, [])
  {
    Postgres.StoredIsUuid(id);
    Postgres.BracesIgnored(id);
    Postgres.FindBySameValue(t, "{" + id + "}", id);
    Postgres.FindStored(t, id);
    assert |"{" + id + "}"| == 38;
  }
}
