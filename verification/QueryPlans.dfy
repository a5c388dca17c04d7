/**
 A permission check among changes of the tables: which of their states each of its queries sees
 (internal/modules/iam/service/permission_checker.go:94-123). Query 0 reads the user's links and
 query 1 the roles; for the i-th role query 2 + 2i reads its links and query 3 + 2i the linked
 permissions; the recursive query comes last.
 */
module QueryPlans {
  import opened Wrappers
  import opened PermissionTree
  import opened PermissionCheck
  import opened PermissionReads

  // For each query the entry it sees, of the tables from the start of the check on with one entry
  // for each change. Later queries never see older tables than earlier ones.
  type Plan = seq<nat>

  function Max(a: nat, b: nat): nat { if a >= b then a else b }

  /** The entry that query q sees of entries 0 to last. */
  function When(plan: Plan, last: nat, q: nat): (w: nat)
    ensures w <= last
  {
    var own := if q >= |plan| then 0 else if plan[q] <= last then plan[q] else last;
    if q == 0 then own else Max(When(plan, last, q - 1), own)
  }

  function LinksQuery(i: nat): nat { 2 + 2 * i }

  function RowsQuery(i: nat): nat { 3 + 2 * i }

  function ReadsOf(tables: seq<Database>, plan: Plan): Reads
    requires tables != []
  {
    var last := |tables| - 1;
    Reads(tables[When(plan, last, 0)], tables[When(plan, last, 1)],
          (i: nat) => tables[When(plan, last, LinksQuery(i))], (i: nat) => tables[When(plan, last, RowsQuery(i))],
          (i: nat) => tables[When(plan, last, LinksQuery(i))])
  }

  /** The keys that a check computes. */
  function KeysRead(tables: seq<Database>, plan: Plan, user: Id): Keyset {
    if tables == [] then {} else Keys(AllRead(ReadsOf(tables, plan), user))
  }

  lemma {:induction false} LaterSeesLater(plan: Plan, last: nat, q: nat, r: nat)
    requires q <= r
    ensures When(plan, last, q) <= When(plan, last, r)
    decreases r
  {
    if q < r {
      LaterSeesLater(plan, last, q, r - 1);
    }
  }

  /** From the last planned query on nothing newer is seen. */
  lemma {:induction false} NothingNewer(plan: Plan, last: nat, q: nat)
    ensures When(plan, last, q) <= When(plan, last, |plan|)
    ensures q >= |plan| ==> When(plan, last, q) == When(plan, last, |plan|)
  {
    if q <= |plan| {
      LaterSeesLater(plan, last, q, |plan|);
    } else {
      NothingNewer(plan, last, q - 1);
    }
  }

  lemma {:induction false} EmptyPlan(last: nat, q: nat)
    ensures When([], last, q) == 0
  {
    if q > 0 {
      EmptyPlan(last, q - 1);
    }
  }

  /** While nothing of the user's changes, the check gives the same as at any one instant. */
  lemma UndisturbedIsExact(tables: seq<Database>, plan: Plan, user: Id)
    requires tables != [] && forall i :: 0 <= i < |tables| ==> SameFor(tables[|tables| - 1], tables[i], user)
    ensures KeysRead(tables, plan, user) == KeysOf(tables[|tables| - 1], user)
  {
    ReadsAgree(ReadsOf(tables, plan), tables[|tables| - 1], user);
  }

  /** A check whose queries all run at its start. */
  lemma AtOnceIsExact(tables: seq<Database>, user: Id)
    requires tables != []
    ensures KeysRead(tables, [], user) == KeysOf(tables[0], user)
  {
    var last := |tables| - 1;
    forall q: nat ensures When([], last, q) == 0 {
      EmptyPlan(last, q);
    }
    ReadsAgree(ReadsOf(tables, []), tables[0], user);
  }
}
