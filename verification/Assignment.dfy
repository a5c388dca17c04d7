/**
 Incremental assignment: AssignRolePermissions
 (internal/modules/iam/service/role_service.go:225-251) and assignUserRoles
 (internal/modules/iam/service/user_role_service.go:47-73). Both keep the links of an owner (a
 role or a user) to items (permissions or roles) in a table with an auto-increment id and a
 unique key on the pair.
 */
module Assignment {
  type Id = nat

  datatype Row = Row(id: nat, owner: Id, item: Id)

  // nextId is the table's auto-increment counter.
  datatype Table = Table(rows: seq<Row>, nextId: nat)

  /** No row repeats r's primary key or its (owner, item) pair. */
  predicate Unlike(rows: seq<Row>, r: Row) {
    forall x :: x in rows ==> x.id != r.id && !(x.owner == r.owner && x.item == r.item)
  }

  /** The primary key and the unique key hold, and the counter is past every id. */
  predicate Keyed(rows: seq<Row>, nextId: nat) {
    rows != [] ==> rows[0].id < nextId && Unlike(rows[1..], rows[0]) && Keyed(rows[1..], nextId)
  }

  predicate Valid(t: Table) {
    Keyed(t.rows, t.nextId)
  }

  predicate Distinct(ids: seq<Id>) {
    ids != [] ==> ids[0] !in ids[1..] && Distinct(ids[1..])
  }

  predicate Linked(rows: seq<Row>, owner: Id, item: Id) {
    exists r :: r in rows && r.owner == owner && r.item == item
  }

  /** FindAll filters by the model's non-zero fields: a zero owner filters nothing. */
  function FindAll(rows: seq<Row>, owner: Id): seq<Row> {
    if rows == [] then [] else
    var rest := FindAll(rows[1..], owner);
    if owner == 0 || rows[0].owner == owner then [rows[0]] + rest else rest
  }

  function ItemsOf(rows: seq<Row>): seq<Id> {
    if rows == [] then [] else [rows[0].item] + ItemsOf(rows[1..])
  }

  /** lo.Filter with !lo.Contains */
  function Without(ids: seq<Id>, excluded: seq<Id>): seq<Id> {
    if ids == [] then [] else
    var rest := Without(ids[1..], excluded);
    if ids[0] in excluded then rest else [ids[0]] + rest
  }

  function DeleteWhere(rows: seq<Row>, owner: Id, items: seq<Id>): seq<Row> {
    if rows == [] then [] else
    var rest := DeleteWhere(rows[1..], owner, items);
    if rows[0].owner == owner && rows[0].item in items then rest else [rows[0]] + rest
  }

  function NewRows(nextId: nat, owner: Id, items: seq<Id>): seq<Row>
    decreases |items|
  {
    if items == [] then [] else [Row(nextId, owner, items[0])] + NewRows(nextId + 1, owner, items[1..])
  }

  /** One INSERT statement: it fails as a whole when it would repeat a pair. */
  predicate InsertAccepted(rows: seq<Row>, owner: Id, items: seq<Id>) {
    Distinct(items) && forall item :: item in items ==> !Linked(rows, owner, item)
  }

  function ToRemove(t: Table, owner: Id, wanted: seq<Id>): seq<Id> {
    Without(ItemsOf(FindAll(t.rows, owner)), wanted)
  }

  function ToAdd(t: Table, owner: Id, wanted: seq<Id>): seq<Id> {
    Without(wanted, ItemsOf(FindAll(t.rows, owner)))
  }

  function Assigned(t: Table, owner: Id, wanted: seq<Id>): (Table, bool) {
    var kept := DeleteWhere(t.rows, owner, ToRemove(t, owner, wanted));
    var add := ToAdd(t, owner, wanted);
    if InsertAccepted(kept, owner, add)
    then (Table(kept + NewRows(t.nextId, owner, add), t.nextId + |add|), true)
    else (t, false)
  }

  // What the database makes of the statements of one call: whether each one that is sent succeeds.
  datatype Db = Db(found: bool, deleted: bool, inserted: bool, committed: bool)

  /** Every statement that the call sends succeeds. */
  predicate Served(t: Table, owner: Id, wanted: seq<Id>, db: Db) {
    && db.found && db.committed
    && (ToRemove(t, owner, wanted) != [] ==> db.deleted)
    && (ToAdd(t, owner, wanted) != [] ==> db.inserted)
  }

  /** The assignment with the database's own failures: each of them rolls the transaction back. */
  function Attempted(t: Table, owner: Id, wanted: seq<Id>, db: Db): (Table, bool) {
    if Served(t, owner, wanted, db) then Assigned(t, owner, wanted) else (t, false)
  }

  // What each step selects.

  lemma {:induction false} FindAllSelects(rows: seq<Row>, owner: Id, item: Id)
    ensures item in ItemsOf(FindAll(rows, owner)) <==>
            exists r :: r in rows && r.item == item && (owner == 0 || r.owner == owner)
  {
    if rows != [] {
      var r, rest := rows[0], rows[1..];
      FindAllSelects(rest, owner, item);
      assert rows == [r] + rest;
      if owner == 0 || r.owner == owner {
        assert FindAll(rows, owner)[1..] == FindAll(rest, owner);
        assert ItemsOf(FindAll(rows, owner)) == [r.item] + ItemsOf(FindAll(rest, owner));
      }
    }
  }

  lemma {:induction false} WithoutSelects(ids: seq<Id>, excluded: seq<Id>, id: Id)
    ensures id in Without(ids, excluded) <==> id in ids && id !in excluded
  {
    if ids != [] {
      WithoutSelects(ids[1..], excluded, id);
    }
  }

  lemma {:induction false} DeleteSelects(rows: seq<Row>, owner: Id, items: seq<Id>, r: Row)
    ensures r in DeleteWhere(rows, owner, items) <==> r in rows && !(r.owner == owner && r.item in items)
  {
    if rows != [] {
      DeleteSelects(rows[1..], owner, items, r);
    }
  }

  lemma {:induction false} NewRowsLink(nextId: nat, owner: Id, items: seq<Id>, r: Row)
    ensures r in NewRows(nextId, owner, items) ==>
              r.owner == owner && r.item in items && nextId <= r.id < nextId + |items|
    decreases |items|
  {
    if items != [] {
      NewRowsLink(nextId + 1, owner, items[1..], r);
    }
  }

  lemma {:induction false} EveryItemGetsARow(nextId: nat, owner: Id, items: seq<Id>, item: Id)
    requires item in items
    ensures Linked(NewRows(nextId, owner, items), owner, item)
    decreases |items|
  {
    if items[0] == item {
      assert NewRows(nextId, owner, items)[0] == Row(nextId, owner, item);
    } else {
      EveryItemGetsARow(nextId + 1, owner, items[1..], item);
      var r :| r in NewRows(nextId + 1, owner, items[1..]) && r.owner == owner && r.item == item;
      assert r in NewRows(nextId, owner, items);
    }
  }

  lemma {:induction false} DeleteNothing(rows: seq<Row>, owner: Id)
    ensures DeleteWhere(rows, owner, []) == rows
  {
    if rows != [] {
      DeleteNothing(rows[1..], owner);
    }
  }

  // The keys hold after every assignment.

  lemma {:induction false} DeleteKeepsKeys(rows: seq<Row>, nextId: nat, owner: Id, items: seq<Id>)
    requires Keyed(rows, nextId)
    ensures Keyed(DeleteWhere(rows, owner, items), nextId)
  {
    if rows != [] {
      var rest := DeleteWhere(rows[1..], owner, items);
      DeleteKeepsKeys(rows[1..], nextId, owner, items);
      if !(rows[0].owner == owner && rows[0].item in items) {
        forall x | x in rest ensures x in rows[1..] { DeleteSelects(rows[1..], owner, items, x); }
        var out := [rows[0]] + rest;
        assert out[1..] == rest;
        assert Keyed(out, nextId);
      }
    }
  }

  lemma {:induction false} NewRowsAreKeyed(nextId: nat, owner: Id, items: seq<Id>)
    requires Distinct(items)
    ensures Keyed(NewRows(nextId, owner, items), nextId + |items|)
    decreases |items|
  {
    if items != [] {
      var rest := NewRows(nextId + 1, owner, items[1..]);
      NewRowsAreKeyed(nextId + 1, owner, items[1..]);
      forall x | x in rest ensures x.id != nextId && x.item != items[0] {
        NewRowsLink(nextId + 1, owner, items[1..], x);
      }
      var out := [Row(nextId, owner, items[0])] + rest;
      assert out[1..] == rest;
      assert Keyed(out, nextId + |items|);
    }
  }

  lemma {:induction false} AppendKeepsKeys(a: seq<Row>, b: seq<Row>, nextId: nat)
    requires Keyed(a, nextId) && Keyed(b, nextId)
    requires forall r :: r in a ==> Unlike(b, r)
    ensures Keyed(a + b, nextId)
  {
    if a == [] {
      assert a + b == b;
    } else {
      assert forall r :: r in a[1..] ==> r in a;
      AppendKeepsKeys(a[1..], b, nextId);
      assert (a + b)[1..] == a[1..] + b;
      assert Unlike(b, a[0]);
      assert Unlike(a[1..] + b, a[0]);
    }
  }

  lemma {:induction false} LaterCounter(rows: seq<Row>, nextId: nat, later: nat)
    requires Keyed(rows, nextId) && nextId <= later
    ensures Keyed(rows, later)
  {
    if rows != [] {
      LaterCounter(rows[1..], nextId, later);
    }
  }

  lemma {:induction false} IdsBelow(rows: seq<Row>, nextId: nat, r: Row)
    requires Keyed(rows, nextId) && r in rows
    ensures r.id < nextId
  {
    if r != rows[0] {
      IdsBelow(rows[1..], nextId, r);
    }
  }

  lemma AssignedStaysValid(t: Table, owner: Id, wanted: seq<Id>)
    requires Valid(t)
    ensures Valid(Assigned(t, owner, wanted).0)
  {
    var remove, add := ToRemove(t, owner, wanted), ToAdd(t, owner, wanted);
    var kept := DeleteWhere(t.rows, owner, remove);
    if InsertAccepted(kept, owner, add) {
      var inserted := NewRows(t.nextId, owner, add);
      DeleteKeepsKeys(t.rows, t.nextId, owner, remove);
      LaterCounter(kept, t.nextId, t.nextId + |add|);
      NewRowsAreKeyed(t.nextId, owner, add);
      forall r | r in kept ensures Unlike(inserted, r) {
        IdsBelow(kept, t.nextId, r);
        forall x | x in inserted ensures x.id != r.id && !(x.owner == r.owner && x.item == r.item) {
          NewRowsLink(t.nextId, owner, add, x);
          assert !Linked(kept, owner, x.item);
        }
      }
      AppendKeepsKeys(kept, inserted, t.nextId + |add|);
    }
  }

  // What an assignment does to the stored set.

  /** Existing links of a real owner are what FindAll reports. */
  lemma FoundIsLinked(t: Table, owner: Id, item: Id)
    requires owner != 0
    ensures item in ItemsOf(FindAll(t.rows, owner)) <==> Linked(t.rows, owner, item)
  {
    FindAllSelects(t.rows, owner, item);
  }

  /**
   With a real owner the assignment fails exactly when a statement fails or the request itself
   repeats an id that is to be added, and then the table is as before.
   */
  lemma SucceedsIff(t: Table, owner: Id, wanted: seq<Id>, db: Db)
    requires owner != 0
    ensures Attempted(t, owner, wanted, db).1 <==> Served(t, owner, wanted, db) && Distinct(ToAdd(t, owner, wanted))
    ensures !Attempted(t, owner, wanted, db).1 ==> Attempted(t, owner, wanted, db).0 == t
  {
    var remove, add := ToRemove(t, owner, wanted), ToAdd(t, owner, wanted);
    var kept := DeleteWhere(t.rows, owner, remove);
    forall item | item in add ensures !Linked(kept, owner, item) {
      WithoutSelects(wanted, ItemsOf(FindAll(t.rows, owner)), item);
      FoundIsLinked(t, owner, item);
      forall r | r in kept ensures !(r.owner == owner && r.item == item) {
        DeleteSelects(t.rows, owner, remove, r);
      }
    }
  }

  lemma {:induction false} FoundDistinct(rows: seq<Row>, nextId: nat, owner: Id)
    requires Keyed(rows, nextId) && owner != 0
    ensures Distinct(ItemsOf(FindAll(rows, owner)))
  {
    if rows != [] {
      FoundDistinct(rows[1..], nextId, owner);
      if rows[0].owner == owner {
        var rest := FindAll(rows[1..], owner);
        FindAllSelects(rows[1..], owner, rows[0].item);
        assert FindAll(rows, owner)[1..] == rest;
        assert ItemsOf(FindAll(rows, owner)) == [rows[0].item] + ItemsOf(rest);
        assert ItemsOf(FindAll(rows, owner))[1..] == ItemsOf(rest);
      }
    }
  }

  lemma {:induction false} WithoutDistinct(ids: seq<Id>, excluded: seq<Id>)
    requires Distinct(ids)
    ensures Distinct(Without(ids, excluded))
  {
    if ids != [] {
      WithoutDistinct(ids[1..], excluded);
      WithoutSelects(ids[1..], excluded, ids[0]);
      assert ([ids[0]] + Without(ids[1..], excluded))[1..] == Without(ids[1..], excluded);
    }
  }

  /** What is deleted and inserted is the symmetric difference, each id once if the insert is accepted. */
  lemma ChangesAreSymmetricDifference(t: Table, owner: Id, wanted: seq<Id>, item: Id)
    requires Valid(t) && owner != 0
    ensures item in ToRemove(t, owner, wanted) <==> Linked(t.rows, owner, item) && item !in wanted
    ensures item in ToAdd(t, owner, wanted) <==> item in wanted && !Linked(t.rows, owner, item)
    ensures Distinct(ToRemove(t, owner, wanted))
    ensures Assigned(t, owner, wanted).1 ==> Distinct(ToAdd(t, owner, wanted))
  {
    var existing := ItemsOf(FindAll(t.rows, owner));
    FoundDistinct(t.rows, t.nextId, owner);
    WithoutDistinct(existing, wanted);
    WithoutSelects(existing, wanted, item);
    WithoutSelects(wanted, existing, item);
    FoundIsLinked(t, owner, item);
  }

  /**
   Row by row: other owners' rows and the owner's wanted rows stay, with their ids; the owner's
   unwanted rows go; every new row is the owner's, wanted, not linked before and has a fresh id.
   */
  lemma RowsAfter(t: Table, owner: Id, wanted: seq<Id>, r: Row)
    requires Valid(t) && owner != 0
    ensures Assigned(t, owner, wanted).1 && r in t.rows ==>
              (r in Assigned(t, owner, wanted).0.rows <==> r.owner != owner || r.item in wanted)
    ensures r !in t.rows && r in Assigned(t, owner, wanted).0.rows ==>
              r.owner == owner && r.item in wanted && !Linked(t.rows, owner, r.item) && t.nextId <= r.id
  {
    ChangesAreSymmetricDifference(t, owner, wanted, r.item);
    DeleteSelects(t.rows, owner, ToRemove(t, owner, wanted), r);
    NewRowsLink(t.nextId, owner, ToAdd(t, owner, wanted), r);
    if r in t.rows {
      IdsBelow(t.rows, t.nextId, r);
    }
  }

  /** Incremental assignment is set replacement. */
  lemma AssignmentReplaces(t: Table, owner: Id, wanted: seq<Id>, item: Id)
    requires Valid(t) && owner != 0
    ensures Assigned(t, owner, wanted).1 ==> (Linked(Assigned(t, owner, wanted).0.rows, owner, item) <==> item in wanted)
  {
    var rows' := Assigned(t, owner, wanted).0.rows;
    if r :| r in rows' && r.owner == owner && r.item == item {
      RowsAfter(t, owner, wanted, r);
    }
    if r :| r in t.rows && r.owner == owner && r.item == item {
      RowsAfter(t, owner, wanted, r);
    } else if item in wanted {
      AddedIsLinked(t, owner, wanted, item);
    }
  }

  lemma AddedIsLinked(t: Table, owner: Id, wanted: seq<Id>, item: Id)
    requires item in wanted
    requires !exists r :: r in t.rows && r.item == item && (owner == 0 || r.owner == owner)
    ensures Assigned(t, owner, wanted).1 ==> Linked(Assigned(t, owner, wanted).0.rows, owner, item)
  {
    var add := ToAdd(t, owner, wanted);
    FindAllSelects(t.rows, owner, item);
    WithoutSelects(wanted, ItemsOf(FindAll(t.rows, owner)), item);
    EveryItemGetsARow(t.nextId, owner, add, item);
    var r :| r in NewRows(t.nextId, owner, add) && r.owner == owner && r.item == item;
    assert Assigned(t, owner, wanted).1 ==> r in Assigned(t, owner, wanted).0.rows;
  }

  /** Some row, of any owner, has the item. */
  predicate Taken(rows: seq<Row>, item: Id) {
    exists r :: r in rows && r.item == item
  }

  /**
   With the zero owner FindAll drops its filter: an item that any owner holds is not inserted, so
   the zero owner ends up with it only if it had it before.
   */
  ghost predicate ZeroHolds(t: Table, wanted: seq<Id>, item: Id) {
    Linked(Assigned(t, 0, wanted).0.rows, 0, item) <==>
      item in wanted && (Linked(t.rows, 0, item) || !Taken(t.rows, item))
  }

  lemma ZeroOwnerHolds(t: Table, wanted: seq<Id>, item: Id)
    ensures Assigned(t, 0, wanted).1 ==> ZeroHolds(t, wanted, item)
  {
    var rows' := Assigned(t, 0, wanted).0.rows;
    var existing := ItemsOf(FindAll(t.rows, 0));
    FindAllSelects(t.rows, 0, item);
    WithoutSelects(existing, wanted, item);
    WithoutSelects(wanted, existing, item);
    if r :| r in rows' && r.owner == 0 && r.item == item {
      DeleteSelects(t.rows, 0, ToRemove(t, 0, wanted), r);
      NewRowsLink(t.nextId, 0, ToAdd(t, 0, wanted), r);
    }
    if item in wanted {
      if r :| r in t.rows && r.owner == 0 && r.item == item {
        DeleteSelects(t.rows, 0, ToRemove(t, 0, wanted), r);
        assert Assigned(t, 0, wanted).1 ==> r in rows';
      } else if !Taken(t.rows, item) {
        AddedIsLinked(t, 0, wanted, item);
      }
    }
  }

  /** So after a success a zero owner has the requested set exactly when no requested item is held by others only. */
  lemma ZeroOwnerReplacesIff(t: Table, wanted: seq<Id>)
    ensures Assigned(t, 0, wanted).1 ==>
            ((forall item :: Linked(Assigned(t, 0, wanted).0.rows, 0, item) <==> item in wanted) <==>
             (forall item :: item in wanted && Taken(t.rows, item) ==> Linked(t.rows, 0, item)))
  {
    forall item: Id ensures Assigned(t, 0, wanted).1 ==> ZeroHolds(t, wanted, item) {
      ZeroOwnerHolds(t, wanted, item);
    }
    if Assigned(t, 0, wanted).1 {
      forall item: Id ensures Linked(Assigned(t, 0, wanted).0.rows, 0, item) <==>
                              item in wanted && (Linked(t.rows, 0, item) || !Taken(t.rows, item))
      {
        assert ZeroHolds(t, wanted, item);
      }
    }
  }

  /** The table as the repository calls change it. */
  class LinkTable {
    var rows: seq<Row>
    var nextId: nat

    constructor ()
      ensures rows == [] && Valid(Contents())
    {
      rows, nextId := [], 1;
    }

    ghost function Contents(): Table
      reads this
    {
      Table(rows, nextId)
    }

    method Delete(owner: Id, items: seq<Id>, served: bool) returns (ok: bool)
      modifies this`rows
      ensures ok == served
      ensures rows == if ok then DeleteWhere(old(rows), owner, items) else old(rows)
    {
      ok := served;
      if ok {
        rows := DeleteWhere(rows, owner, items);
      }
    }

    method BatchCreate(owner: Id, items: seq<Id>, served: bool) returns (ok: bool)
      modifies this
      ensures ok == (served && InsertAccepted(old(rows), owner, items))
      ensures rows == (if ok then old(rows) + NewRows(old(nextId), owner, items) else old(rows))
      ensures nextId == if ok then old(nextId) + |items| else old(nextId)
    {
      ok := served && InsertAccepted(rows, owner, items);
      if ok {
        rows := rows + NewRows(nextId, owner, items);
        nextId := nextId + |items|;
      }
    }

    /** The body of the transaction: the delete, then the insert, stopping at the first error. */
    method Replace(owner: Id, toRemove: seq<Id>, toAdd: seq<Id>, db: Db) returns (ok: bool)
      modifies this
      ensures var kept := DeleteWhere(old(rows), owner, toRemove);
              && ok == ((toRemove != [] ==> db.deleted) && (toAdd != [] ==> db.inserted) && InsertAccepted(kept, owner, toAdd))
              && (ok ==> rows == kept + NewRows(old(nextId), owner, toAdd) && nextId == old(nextId) + |toAdd|)
    {
      ok := true;
      if |toRemove| > 0 {
        ok := Delete(owner, toRemove, db.deleted);
      } else {
        DeleteNothing(rows, owner);
      }
      if ok && |toAdd| > 0 {
        ok := BatchCreate(owner, toAdd, db.inserted);
      } else {
        assert rows + NewRows(nextId, owner, []) == rows;
      }
    }

    /** The two writes run in one transaction: whatever fails, its writes are undone. */
    method Assign(owner: Id, wanted: seq<Id>, db: Db) returns (ok: bool)
      requires Valid(Contents())
      modifies this
      ensures Valid(Contents())
      ensures (Contents(), ok) == Attempted(old(Contents()), owner, wanted, db)
    {
      AssignedStaysValid(Contents(), owner, wanted);
      if !db.found {
        return false;
      }
      var existing := ItemsOf(FindAll(rows, owner));
      var begunRows, begunId := rows, nextId;
      ok := Replace(owner, Without(existing, wanted), Without(wanted, existing), db);
      ok := ok && db.committed;
      if !ok {
        rows, nextId := begunRows, begunId;
      }
    }
  }
}
