/**
 * The records the server keeps in its database, and the tables that hold them. Each
 * table is a map from primary key to row; the auto-incremented keys come from a
 * counter `nextId`, so the rows of a table can be listed in key order.
 */
module Store {
  import Bcrypt
  import opened Ordering

  /** A registered user; `password` is a bcrypt digest, never the plaintext. */
  datatype User = User(id: nat, name: string, email: string, password: Bcrypt.Digest)

  /** A user as the server returns it: every field except the password. */
  datatype PublicUser = PublicUser(id: nat, name: string, email: string)

  function WithoutPassword(u: User): PublicUser {
    PublicUser(u.id, u.name, u.email)
  }

  /** A refresh session: an opaque id, its owner, and its absolute expiry in Unix seconds. */
  datatype RefreshToken = RefreshToken(id: string, userId: nat, expiresIn: int)

  /** A money movement: positive amounts are income, negative ones expense; `date` in Unix milliseconds. */
  datatype Transaction = Transaction(
    id: nat, description: string, amount: real, date: int,
    categoryId: nat, paymentMethodId: nat, userId: nat)

  /** A category or a payment method: both are a name owned by a user. */
  datatype Named = Named(id: nat, name: string, userId: nat)

  function TransactionOwner(t: Transaction): nat { t.userId }
  function NamedOwner(n: Named): nat { n.userId }

  /** `orderBy: { name: 'asc' }`. */
  predicate ByName(a: Named, b: Named) {
    LexLe(a.name, b.name)
  }

  lemma ByNameIsTotalPreorder()
    ensures Total(ByName) && Transitive(ByName)
  {
    forall a: Named, b: Named ensures ByName(a, b) || ByName(b, a) {
      LexLeTotal(a.name, b.name);
    }
    forall a: Named, b: Named, c: Named | ByName(a, b) && ByName(b, c) ensures ByName(a, c) {
      LexLeTransitive(a.name, b.name, c.name);
    }
  }

  // ---------------------------------------------------------------------------
  // tables

  /** Every row sits under its own key, and every key is below the counter. */
  ghost predicate KeyedBelow<T>(rows: map<nat, T>, idOf: T -> nat, nextId: nat) {
    forall id :: id in rows ==> 1 <= id < nextId && idOf(rows[id]) == id
  }

  function UserId(u: User): nat { u.id }
  function TransactionId(t: Transaction): nat { t.id }
  function NamedId(n: Named): nat { n.id }

  ghost predicate UniqueEmails(rows: map<nat, User>) {
    forall a, b :: a in rows && b in rows && rows[a].email == rows[b].email ==> a == b
  }

  class UserTable {
    var rows: map<nat, User>
    var nextId: nat

    ghost predicate Valid()
      reads this
    {
      1 <= nextId && KeyedBelow(rows, UserId, nextId) && UniqueEmails(rows)
    }

    constructor()
      ensures Valid() && rows == map[] && nextId == 1
    {
      rows := map[];
      nextId := 1;
    }
  }

  /** Refresh sessions, keyed by their opaque id. */
  class RefreshTokenTable {
    var rows: map<string, RefreshToken>

    ghost predicate Valid()
      reads this
    {
      forall id :: id in rows ==> rows[id].id == id
    }

    constructor()
      ensures Valid() && rows == map[]
    {
      rows := map[];
    }
  }

  class TransactionTable {
    var rows: map<nat, Transaction>
    var nextId: nat

    ghost predicate Valid()
      reads this
    {
      1 <= nextId && KeyedBelow(rows, TransactionId, nextId)
    }

    constructor()
      ensures Valid() && rows == map[] && nextId == 1
    {
      rows := map[];
      nextId := 1;
    }
  }

  /** The `Category` table or the `PaymentMethod` table. */
  class NamedTable {
    var rows: map<nat, Named>
    var nextId: nat

    ghost predicate Valid()
      reads this
    {
      1 <= nextId && KeyedBelow(rows, NamedId, nextId)
    }

    constructor()
      ensures Valid() && rows == map[] && nextId == 1
    {
      rows := map[];
      nextId := 1;
    }
  }

  // ---------------------------------------------------------------------------
  // queries

  /** The rows of a table in key order, keys below `n`. */
  function Listing<T(==,!new)>(rows: map<nat, T>, n: nat): (r: seq<T>)
    ensures forall id :: 0 <= id < n && id in rows ==> rows[id] in r
    ensures forall x :: x in r ==> x in rows.Values
  {
    if n == 0 then []
    else
      var init := Listing(rows, n - 1);
      if n - 1 in rows then init + [rows[n - 1]] else init
  }

  /** The rows of `s` that satisfy `p`, in their order: a `where` clause. */
  function Where<T(==,!new)>(s: seq<T>, p: T -> bool): (r: seq<T>)
    ensures forall x :: x in r <==> x in s && p(x)
    ensures |r| <= |s|
  {
    if s == [] then []
    else
      var init := Where(s[..|s| - 1], p);
      assert s == s[..|s| - 1] + [s[|s| - 1]];
      if p(s[|s| - 1]) then init + [s[|s| - 1]] else init
  }

  /** Listing a table that keyed all rows below its counter yields exactly its rows. */
  lemma ListingHoldsTable<T(!new)>(rows: map<nat, T>, idOf: T -> nat, nextId: nat)
    requires KeyedBelow(rows, idOf, nextId)
    ensures forall x :: x in Listing(rows, nextId) <==> x in rows.Values
  {
    forall x | x in rows.Values ensures x in Listing(rows, nextId) {
      var id :| id in rows && rows[id] == x;
    }
  }

  /** `findMany({ where: { userId } })` before ordering: the rows `userId` owns, in key order, keys below `n`. */
  function Owned<T(==,!new)>(rows: map<nat, T>, n: nat, ownerOf: T -> nat, userId: nat): (r: seq<T>)
    ensures forall x :: x in r ==> x in rows.Values && ownerOf(x) == userId
    ensures forall id :: 0 <= id < n && id in rows && ownerOf(rows[id]) == userId ==> rows[id] in r
  {
    if n == 0 then []
    else
      var init := Owned(rows, n - 1, ownerOf, userId);
      if n - 1 in rows && ownerOf(rows[n - 1]) == userId then init + [rows[n - 1]] else init
  }

  /** `deleteMany({ where: { id, userId } })`: the row goes only when `userId` owns it. */
  function DeleteOwned<T>(rows: map<nat, T>, ownerOf: T -> nat, userId: nat, id: nat): map<nat, T> {
    if id in rows && ownerOf(rows[id]) == userId then rows - {id} else rows
  }

  /** `deleteMany` answers how many rows it deleted. */
  function DeletedCount<T>(rows: map<nat, T>, ownerOf: T -> nat, userId: nat, id: nat): (count: nat)
    ensures count <= 1
    ensures count == |rows| - |DeleteOwned(rows, ownerOf, userId, id)|
  {
    if id in rows && ownerOf(rows[id]) == userId then 1 else 0
  }

  /** Two tables that agree on one user's rows below `n` list the same rows for that user. */
  lemma {:induction false} OwnedAgree<T(!new)>(rows1: map<nat, T>, rows2: map<nat, T>, n: nat, ownerOf: T -> nat, userId: nat)
    requires forall id :: 0 <= id < n ==>
      ((id in rows1 && ownerOf(rows1[id]) == userId) <==> (id in rows2 && ownerOf(rows2[id]) == userId))
    requires forall id :: 0 <= id < n && id in rows1 && id in rows2 && ownerOf(rows1[id]) == userId ==>
      rows1[id] == rows2[id]
    ensures Owned(rows1, n, ownerOf, userId) == Owned(rows2, n, ownerOf, userId)
  {
    if n > 0 {
      OwnedAgree(rows1, rows2, n - 1, ownerOf, userId);
    }
  }

  /**
   * Inserting a row under the counter appends it to its owner's listing and leaves every
   * other user's listing as it was.
   */
  lemma OwnedAfterInsert<T(!new)>(rows: map<nat, T>, nextId: nat, idOf: T -> nat, ownerOf: T -> nat, row: T, userId: nat)
    requires KeyedBelow(rows, idOf, nextId)
    ensures Owned(rows[nextId := row], nextId + 1, ownerOf, userId) ==
      Owned(rows, nextId, ownerOf, userId) + (if ownerOf(row) == userId then [row] else [])
  {
    OwnedAgree(rows, rows[nextId := row], nextId, ownerOf, userId);
  }

  /** Deleting leaves every listing as it was except for the deleted row. */
  lemma OwnedAfterDelete<T(!new)>(rows: map<nat, T>, nextId: nat, idOf: T -> nat, ownerOf: T -> nat,
                                  owner: nat, id: nat, userId: nat)
    requires KeyedBelow(rows, idOf, nextId)
    ensures userId != owner ==>
      Owned(DeleteOwned(rows, ownerOf, owner, id), nextId, ownerOf, userId) == Owned(rows, nextId, ownerOf, userId)
    ensures forall x :: x in Owned(DeleteOwned(rows, ownerOf, owner, id), nextId, ownerOf, userId) <==>
      x in Owned(rows, nextId, ownerOf, userId) && !(id in rows && ownerOf(rows[id]) == owner && x == rows[id])
  {
    var after := DeleteOwned(rows, ownerOf, owner, id);
    if userId != owner {
      OwnedAgree(after, rows, nextId, ownerOf, userId);
    }
    forall x | x in Owned(rows, nextId, ownerOf, userId) && !(id in rows && ownerOf(rows[id]) == owner && x == rows[id])
      ensures x in Owned(after, nextId, ownerOf, userId)
    {
      var k :| k in rows && rows[k] == x;
      assert k in after;
    }
  }
}
