/**
 Roles and their permission links over time: CreateRole, UpdateRole and DeleteRole
 (internal/modules/iam/service/role_service.go:41-152) on the tables that the permission
 decision reads. Nothing in the schema ties a link to its role.
 */
module Roles {
  import opened Wrappers
  import opened Assignment
  import PermissionTree
  import PermissionCheck

  // The role table's ids with its counter, and role_permission with its own.
  datatype State = State(ids: seq<Id>, nextRole: Id, links: Table)

  // What the database makes of a call: the statements on the role row itself, those of the
  // assignment, and the read of the permissions for the response, in CreateRole with the commit.
  datatype Outcome = Outcome(row: bool, links: Db, read: bool)

  datatype Call =
    | Create(wanted: seq<Id>, db: Outcome)
    | Update(id: Id, change: Option<seq<Id>>, db: Outcome)
    | Delete(id: Id, row: bool)

  /** What is left when all links of a role are deleted. */
  function Unlinked(rows: seq<Row>, owner: Id): seq<Row> {
    if rows == [] then [] else
    var rest := Unlinked(rows[1..], owner);
    if rows[0].owner == owner then rest else [rows[0]] + rest
  }

  /** The links after the assignment step of a call: CreateRole skips it for an empty list. */
  function Filled(s: State, wanted: seq<Id>, db: Db): (Table, bool) {
    if wanted == [] then (s.links, true) else Attempted(s.links, s.nextRole, wanted, db)
  }

  /** UpdateRole skips it when the request has no list. */
  function Changed(s: State, id: Id, change: Option<seq<Id>>, db: Db): (Table, bool) {
    if change.None? then (s.links, true) else Attempted(s.links, id, change.value, db)
  }

  function Step(s: State, c: Call): (State, bool) {
    match c
    case Create(wanted, db) =>
      var (links, ok) := Filled(s, wanted, db.links);
      if db.row && ok && db.read then (State(s.ids + [s.nextRole], s.nextRole + 1, links), true) else (s, false)
    case Update(id, change, db) =>
      if id !in s.ids || !db.row then (s, false)
      else
        var (links, ok) := Changed(s, id, change, db.links);
        (s.(links := links), ok && db.read)
    case Delete(id, row) =>
      if id !in s.ids || !row then (s, false)
      else (s.(ids := Without(s.ids, [id]), links := s.links.(rows := Unlinked(s.links.rows, id))), true)
  }

  function Run(s: State, calls: seq<Call>): State
    decreases |calls|
  {
    if calls == [] then s else Run(Step(s, calls[0]).0, calls[1..])
  }

  ghost predicate IdsUsed(s: State) {
    s.nextRole > 0 && forall id :: id in s.ids ==> 0 < id < s.nextRole
  }

  /** Every link belongs to a role that exists. */
  ghost predicate NoOrphans(s: State) {
    forall r :: r in s.links.rows ==> r.owner in s.ids
  }

  ghost predicate Inv(s: State) {
    IdsUsed(s) && NoOrphans(s) && Valid(s.links)
  }

  lemma {:induction false} UnlinkedSelects(rows: seq<Row>, owner: Id, r: Row)
    ensures r in Unlinked(rows, owner) <==> r in rows && r.owner != owner
  {
    if rows != [] {
      UnlinkedSelects(rows[1..], owner, r);
    }
  }

  lemma {:induction false} UnlinkedKeepsKeys(rows: seq<Row>, nextId: nat, owner: Id)
    requires Keyed(rows, nextId)
    ensures Keyed(Unlinked(rows, owner), nextId)
  {
    if rows != [] {
      var rest := Unlinked(rows[1..], owner);
      UnlinkedKeepsKeys(rows[1..], nextId, owner);
      forall x | x in rest ensures x in rows[1..] { UnlinkedSelects(rows[1..], owner, x); }
      assert ([rows[0]] + rest)[1..] == rest;
    }
  }

  /** After an assignment, successful or not, a link is an old one or the owner's. */
  lemma AssignedOwners(t: Table, owner: Id, wanted: seq<Id>, r: Row)
    ensures r in Assigned(t, owner, wanted).0.rows ==> r in t.rows || r.owner == owner
    ensures r in t.rows && r.owner != owner ==> r in Assigned(t, owner, wanted).0.rows
  {
    DeleteSelects(t.rows, owner, ToRemove(t, owner, wanted), r);
    NewRowsLink(t.nextId, owner, ToAdd(t, owner, wanted), r);
  }

  lemma AssignKeepsInv(s: State, owner: Id, wanted: seq<Id>, ids: seq<Id>, next: Id)
    requires Inv(s) && owner in ids && (forall id :: id in s.ids ==> id in ids)
    requires next > 0 && forall id :: id in ids ==> 0 < id < next
    ensures Inv(State(ids, next, Assigned(s.links, owner, wanted).0))
  {
    AssignedStaysValid(s.links, owner, wanted);
    forall r | r in Assigned(s.links, owner, wanted).0.rows ensures r.owner in ids {
      AssignedOwners(s.links, owner, wanted, r);
    }
  }

  lemma DeleteKeepsInv(s: State, id: Id)
    requires Inv(s) && id in s.ids
    ensures Inv(Step(s, Delete(id, true)).0)
  {
    var s' := Step(s, Delete(id, true)).0;
    UnlinkedKeepsKeys(s.links.rows, s.links.nextId, id);
    forall other ensures other in s'.ids <==> other in s.ids && other != id {
      WithoutSelects(s.ids, [id], other);
    }
    forall r | r in s'.links.rows ensures r.owner in s'.ids {
      UnlinkedSelects(s.links.rows, id, r);
    }
  }

  lemma StepKeepsInv(s: State, c: Call)
    requires Inv(s)
    ensures Inv(Step(s, c).0)
  {
    match c
    case Create(wanted, db) => AssignKeepsInv(s, s.nextRole, wanted, s.ids + [s.nextRole], s.nextRole + 1);
    case Update(id, change, db) =>
      if id in s.ids && change.Some? {
        AssignKeepsInv(s, id, change.value, s.ids, s.nextRole);
      }
    case Delete(id, _) =>
      if id in s.ids {
        DeleteKeepsInv(s, id);
      }
  }

  /** No run of calls, failing ones included, leaves a link without its role. */
  lemma {:induction false} RunKeepsInv(s: State, calls: seq<Call>)
    requires Inv(s)
    ensures Inv(Run(s, calls))
    decreases |calls|
  {
    if calls != [] {
      StepKeepsInv(s, calls[0]);
      RunKeepsInv(Step(s, calls[0]).0, calls[1..]);
    }
  }

  // A new role.

  lemma {:induction false} NothingExcluded(ids: seq<Id>, excluded: seq<Id>)
    requires forall id :: id in ids ==> id !in excluded
    ensures Without(ids, excluded) == ids
  {
    if ids != [] {
      NothingExcluded(ids[1..], excluded);
    }
  }

  /** A fresh id has no links yet, so all wanted ids are to be added. */
  lemma NewRoleAddsAll(s: State, wanted: seq<Id>)
    requires Inv(s)
    ensures forall item :: !Linked(s.links.rows, s.nextRole, item)
    ensures ToAdd(s.links, s.nextRole, wanted) == wanted
  {
    forall id | id in wanted ensures id !in ItemsOf(FindAll(s.links.rows, s.nextRole)) {
      FoundIsLinked(s.links, s.nextRole, id);
    }
    NothingExcluded(wanted, ItemsOf(FindAll(s.links.rows, s.nextRole)));
  }

  /**
   CreateRole succeeds exactly when every statement does and no permission id repeats. Then the new
   role has exactly the wanted permissions; otherwise role and links are as before.
   */
  lemma CreateIsAllOrNothing(s: State, wanted: seq<Id>, db: Outcome)
    requires Inv(s)
    ensures var (s', ok) := Step(s, Create(wanted, db));
            && (ok <==> db.row && db.read
                        && (wanted != [] ==> Served(s.links, s.nextRole, wanted, db.links) && Distinct(wanted)))
            && (!ok ==> s' == s)
            && (ok ==> && s'.ids == s.ids + [s.nextRole] && s.nextRole !in s.ids && s'.nextRole > s.nextRole
                       && (forall item :: Linked(s'.links.rows, s.nextRole, item) <==> item in wanted)
                       && forall r: Row :: r.owner != s.nextRole ==> (r in s'.links.rows <==> r in s.links.rows))
  {
    forall r: Row | r.owner != s.nextRole
      ensures r in Assigned(s.links, s.nextRole, wanted).0.rows <==> r in s.links.rows
    {
      AssignedOwners(s.links, s.nextRole, wanted, r);
    }
    NewRoleAddsAll(s, wanted);
    SucceedsIff(s.links, s.nextRole, wanted, db.links);
    if wanted != [] && Attempted(s.links, s.nextRole, wanted, db.links).1 {
      forall item ensures Linked(Assigned(s.links, s.nextRole, wanted).0.rows, s.nextRole, item) <==> item in wanted {
        AssignmentReplaces(s.links, s.nextRole, wanted, item);
      }
    }
  }

  /** The assignment of an UpdateRole call commits: it has a transaction of its own. */
  predicate Commits(s: State, id: Id, change: Option<seq<Id>>, db: Outcome) {
    db.row && change.Some? && Served(s.links, id, change.value, db.links) && Distinct(ToAdd(s.links, id, change.value))
  }

  /**
   UpdateRole replaces the role's permissions when its assignment commits and leaves them when it
   does not, whatever it answers, and never touches other roles.
   */
  lemma UpdateReplaces(s: State, id: Id, change: Option<seq<Id>>, db: Outcome, item: Id, r: Row)
    requires Inv(s) && id in s.ids
    ensures var (s', ok) := Step(s, Update(id, change, db));
            && s'.ids == s.ids
            && (r.owner != id ==> (r in s'.links.rows <==> r in s.links.rows))
            && (Linked(s'.links.rows, id, item) <==>
                  if Commits(s, id, change, db) then item in change.value else Linked(s.links.rows, id, item))
            && (ok <==> db.row && db.read && (change.Some? ==> Commits(s, id, change, db)))
  {
    if change.Some? {
      SucceedsIff(s.links, id, change.value, db.links);
      AssignedOwners(s.links, id, change.value, r);
      if Commits(s, id, change, db) {
        AssignmentReplaces(s.links, id, change.value, item);
      }
    }
  }

  lemma NothingToDo(t: Table, owner: Id, wanted: seq<Id>)
    requires ToRemove(t, owner, wanted) == [] && ToAdd(t, owner, wanted) == []
    ensures Assigned(t, owner, wanted).0 == t
  {
    DeleteNothing(t.rows, owner);
    assert t.rows + NewRows(t.nextId, owner, []) == t.rows;
  }

  lemma SomethingDone(t: Table, owner: Id, wanted: seq<Id>)
    requires Valid(t) && owner != 0 && Assigned(t, owner, wanted).1
    requires ToRemove(t, owner, wanted) != [] || ToAdd(t, owner, wanted) != []
    ensures Assigned(t, owner, wanted).0 != t
  {
    if ToAdd(t, owner, wanted) == [] {
      var item := ToRemove(t, owner, wanted)[0];
      ChangesAreSymmetricDifference(t, owner, wanted, item);
      AssignmentReplaces(t, owner, wanted, item);
    }
  }

  /**
   A failed UpdateRole leaves the links as they were if and only if it failed before its assignment
   committed, or the assignment had nothing to change. The read after the commit can still fail.
   */
  lemma FailedUpdateLeavesLinksIff(s: State, id: Id, change: Option<seq<Id>>, db: Outcome)
    requires Inv(s) && id in s.ids && !Step(s, Update(id, change, db)).1
    ensures Step(s, Update(id, change, db)).0.links == s.links <==>
            || !Commits(s, id, change, db)
            || (ToRemove(s.links, id, change.value) == [] && ToAdd(s.links, id, change.value) == [])
  {
    if change.Some? {
      SucceedsIff(s.links, id, change.value, db.links);
      if Commits(s, id, change, db) {
        if ToRemove(s.links, id, change.value) == [] && ToAdd(s.links, id, change.value) == [] {
          NothingToDo(s.links, id, change.value);
        } else {
          SomethingDone(s.links, id, change.value);
        }
      }
    }
  }

  // A deleted role.

  /** A deletion that reaches the database takes the role and its links, no other role and no other link; a failed one nothing. */
  lemma DeleteRemovesLinks(s: State, id: Id, row: bool, other: Id, r: Row)
    ensures var (s', ok) := Step(s, Delete(id, row));
            && (ok <==> id in s.ids && row) && (!ok ==> s' == s)
            && (ok ==> && id !in s'.ids && (other != id ==> (other in s'.ids <==> other in s.ids))
                       && (r in s'.links.rows <==> r in s.links.rows && r.owner != id))
  {
    WithoutSelects(s.ids, [id], id);
    WithoutSelects(s.ids, [id], other);
    UnlinkedSelects(s.links.rows, id, r);
  }

  predicate Gone(s: State, id: Id) {
    id < s.nextRole && id !in s.ids
  }

  lemma StepKeepsGone(s: State, c: Call, id: Id)
    requires Gone(s, id)
    ensures Gone(Step(s, c).0, id)
  {
    if c.Delete? {
      WithoutSelects(s.ids, [c.id], id);
    }
  }

  lemma {:induction false} RunKeepsGone(s: State, calls: seq<Call>, id: Id)
    requires Gone(s, id)
    ensures Gone(Run(s, calls), id)
    decreases |calls|
  {
    if calls != [] {
      StepKeepsGone(s, calls[0], id);
      RunKeepsGone(Step(s, calls[0]).0, calls[1..], id);
    }
  }

  /** The tables the permission decision reads. */
  function Tables(s: State, permissions: PermissionTree.Table, userRoles: set<(Id, Id)>): PermissionCheck.Database {
    PermissionCheck.Database(permissions, s.ids, userRoles, set r | r in s.links.rows :: (r.owner, r.item))
  }

  /**
   DeleteRole leaves the users' links to the role behind. Over any later run they grant nothing:
   a user has the same permissions as without such a link, and the role has none.
   */
  lemma DeletedRoleGrantsNothing(s: State, calls: seq<Call>, id: Id, permissions: PermissionTree.Table, userRoles: set<(Id, Id)>, user: Id)
    requires Inv(s) && id in s.ids
    ensures var end := Run(Step(s, Delete(id, true)).0, calls);
            && (forall item :: !Linked(end.links.rows, id, item))
            && PermissionCheck.AllPermissions(Tables(end, permissions, userRoles), user)
               == PermissionCheck.AllPermissions(Tables(end, permissions, userRoles - {(user, id)}), user)
  {
    var after := Step(s, Delete(id, true)).0;
    var end := Run(after, calls);
    WithoutSelects(s.ids, [id], id);
    StepKeepsInv(s, Delete(id, true));
    RunKeepsInv(after, calls);
    RunKeepsGone(after, calls, id);
    SameRolesWithout(end.ids, userRoles, user, id);
    PermissionCheck.SameDirect(Tables(end, permissions, userRoles), Tables(end, permissions, userRoles - {(user, id)}),
                               PermissionCheck.RolesOf(Tables(end, permissions, userRoles), user));
  }

  lemma {:induction false} SameRolesWithout(roles: seq<Id>, links: set<(Id, Id)>, user: Id, id: Id)
    requires id !in roles
    ensures PermissionCheck.RolesAmong(roles, links, user) == PermissionCheck.RolesAmong(roles, links - {(user, id)}, user)
  {
    if roles != [] {
      SameRolesWithout(roles[1..], links, user, id);
    }
  }

  /** The service on its tables; every method body is one transaction. */
  class RoleService {
    var ids: seq<Id>
    var nextRole: Id
    const links: LinkTable

    constructor ()
      ensures fresh(links) && Inv(Contents()) && ids == [] && links.rows == []
    {
      ids, nextRole := [], 1;
      links := new LinkTable();
    }

    ghost function Contents(): State
      reads this, links
    {
      State(ids, nextRole, links.Contents())
    }

    /** What CreateRole does inside its transaction; an error stops it with its writes in place. */
    method Fill(wanted: seq<Id>, db: Outcome) returns (ok: bool)
      requires Valid(links.Contents())
      modifies this`ids, links
      ensures ok == (db.row && Filled(old(Contents()), wanted, db.links).1 && db.read)
      ensures ok ==> ids == old(ids) + [nextRole] && links.Contents() == Filled(old(Contents()), wanted, db.links).0
    {
      if !db.row {
        return false;
      }
      ids := ids + [nextRole];
      ok := true;
      if |wanted| > 0 {
        ok := links.Assign(nextRole, wanted, db.links);
      }
      ok := ok && db.read;
    }

    method CreateRole(wanted: seq<Id>, db: Outcome) returns (ok: bool)
      requires Inv(Contents())
      modifies this, links
      ensures Inv(Contents())
      ensures (Contents(), ok) == Step(old(Contents()), Create(wanted, db))
    {
      StepKeepsInv(Contents(), Create(wanted, db));
      var begunIds, begunRows, begunId := ids, links.rows, links.nextId;
      ok := Fill(wanted, db);
      if ok {
        nextRole := nextRole + 1;
      } else {
        ids, links.rows, links.nextId := begunIds, begunRows, begunId;
      }
    }

    /** No transaction around the whole: the assignment commits before the permissions are read. */
    method UpdateRole(id: Id, change: Option<seq<Id>>, db: Outcome) returns (ok: bool)
      requires Inv(Contents())
      modifies links
      ensures Inv(Contents())
      ensures (Contents(), ok) == Step(old(Contents()), Update(id, change, db))
    {
      StepKeepsInv(Contents(), Update(id, change, db));
      if id !in ids || !db.row {
        return false;
      }
      ok := true;
      if change.Some? {
        ok := links.Assign(id, change.value, db.links);
      }
      ok := ok && db.read;
    }

    method DeleteRole(id: Id, row: bool) returns (ok: bool)
      requires Inv(Contents())
      modifies this`ids, links`rows
      ensures Inv(Contents())
      ensures (Contents(), ok) == Step(old(Contents()), Delete(id, row))
    {
      StepKeepsInv(Contents(), Delete(id, row));
      if id !in ids {
        return false;
      }
      var begun := links.rows;
      links.rows := Unlinked(links.rows, id);
      if !row {
        links.rows := begun;
        return false;
      }
      ids := Without(ids, [id]);
      ok := true;
    }
  }
}
