/**
 * `CategoryService` and `PaymentMethodService`: the same code over two tables of names
 * owned by users. Both list a user's names alphabetically and create names; only payment
 * methods can be deleted.
 */
module NamedService {
  import opened Store
  import opened Ordering

  /**
   * `findAll(userId)`: exactly the user's rows, by name in ascending character-code order.
   * Rows with the same name may come in any order; this model fixes one.
   */
  function FindAll(rows: map<nat, Named>, nextId: nat, userId: nat): (r: seq<Named>)
    ensures SortedBy(r, ByName)
    ensures multiset(r) == multiset(Owned(rows, nextId, NamedOwner, userId))
  {
    ByNameIsTotalPreorder();
    SortBy(Owned(rows, nextId, NamedOwner, userId), ByName)
  }

  /** `create(userId, name)`: inserts the name for the user under the next key and returns the row. */
  method Create(table: NamedTable, userId: nat, name: string) returns (row: Named)
    requires table.Valid()
    modifies table
    ensures table.Valid()
    ensures row == Named(old(table.nextId), name, userId)
    ensures table.rows == old(table.rows)[row.id := row] && table.nextId == old(table.nextId) + 1
  {
    row := Named(table.nextId, name, userId);
    table.rows := table.rows[row.id := row];
    table.nextId := table.nextId + 1;
  }

  /** A created name joins its owner's listing, and every other listing stays as it was. */
  lemma CreateListsNewRow(rows: map<nat, Named>, nextId: nat, userId: nat, name: string, viewer: nat)
    requires KeyedBelow(rows, NamedId, nextId)
    ensures
      var row := Named(nextId, name, userId);
      multiset(FindAll(rows[nextId := row], nextId + 1, viewer)) ==
        multiset(FindAll(rows, nextId, viewer)) + (if viewer == userId then multiset{row} else multiset{})
  {
    OwnedAfterInsert(rows, nextId, NamedId, NamedOwner, Named(nextId, name, userId), viewer);
  }

  /** `PaymentMethodService.deleteById(userId, id)`: deletes the row only when the user owns it. */
  method DeleteById(table: NamedTable, userId: nat, id: nat) returns (count: nat)
    requires table.Valid()
    modifies table
    ensures table.Valid()
    ensures count == DeletedCount(old(table.rows), NamedOwner, userId, id)
    ensures table.rows == DeleteOwned(old(table.rows), NamedOwner, userId, id)
    ensures table.nextId == old(table.nextId)
  {
    count := DeletedCount(table.rows, NamedOwner, userId, id);
    table.rows := DeleteOwned(table.rows, NamedOwner, userId, id);
  }

  /** After `deleteById(owner, id)` only the owner's row with that id leaves the listings. */
  lemma DeleteListing(rows: map<nat, Named>, nextId: nat, owner: nat, id: nat, viewer: nat)
    requires KeyedBelow(rows, NamedId, nextId)
    ensures viewer != owner ==>
      FindAll(DeleteOwned(rows, NamedOwner, owner, id), nextId, viewer) == FindAll(rows, nextId, viewer)
    ensures forall n :: n in FindAll(DeleteOwned(rows, NamedOwner, owner, id), nextId, viewer) <==>
      n in FindAll(rows, nextId, viewer) && !(n.id == id && n.userId == owner)
  {
    var after := DeleteOwned(rows, NamedOwner, owner, id);
    OwnedAfterDelete(rows, nextId, NamedId, NamedOwner, owner, id, viewer);
    forall n ensures n in FindAll(after, nextId, viewer) <==> n in Owned(after, nextId, NamedOwner, viewer) {
      assert n in FindAll(after, nextId, viewer) <==> n in multiset(Owned(after, nextId, NamedOwner, viewer));
    }
    forall n ensures n in FindAll(rows, nextId, viewer) <==> n in Owned(rows, nextId, NamedOwner, viewer) {
      assert n in FindAll(rows, nextId, viewer) <==> n in multiset(Owned(rows, nextId, NamedOwner, viewer));
    }
  }
}
