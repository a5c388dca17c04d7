/**
 The recursive query of getChildPermissionsWithCTE
 (internal/modules/iam/service/role_service.go:284-296), as SQL evaluates it: bags of rows,
 joined level by level with UNION ALL until a level is empty.
 */
module PermissionTree {
  import opened Wrappers

  type Id = nat

  datatype Permission = Permission(id: Id, parent: Option<Id>, verb: string, path: string)

  type Table = seq<Permission>

  /** The primary key of the permission table. */
  ghost predicate UniqueIds(t: Table) {
    forall i, j :: 0 <= i < j < |t| ==> t[i].id != t[j].id
  }

  predicate Has(t: Table, id: Id) {
    exists i :: 0 <= i < |t| && t[i].id == id
  }

  function RowOf(t: Table, id: Id): (r: Permission)
    requires Has(t, id)
    ensures r in t && r.id == id
  {
    if t[0].id == id then t[0] else RowOf(t[1..], id)
  }

  lemma RowIsUnique(t: Table, p: Permission)
    requires UniqueIds(t) && p in t
    ensures Has(t, p.id) && RowOf(t, p.id) == p
  {
    var i :| 0 <= i < |t| && t[i] == p;
    var j :| 0 <= j < |t| && t[j] == RowOf(t, p.id);
  }

  function Ids(t: Table): (r: set<Id>)
    ensures forall id :: id in r <==> Has(t, id)
  {
    set i | 0 <= i < |t| :: t[i].id
  }

  // ----- the query -----

  /** The first level: the rows of the table whose id is a root. */
  function Roots(t: Table, roots: set<Id>): seq<Id> {
    if t == [] then []
    else (if t[0].id in roots then [t[0].id] else []) + Roots(t[1..], roots)
  }

  /** The rows whose parent is one given row of the tree. */
  function ChildrenOf(t: Table, parent: Id): seq<Id> {
    if t == [] then []
    else (if t[0].parent == Some(parent) then [t[0].id] else []) + ChildrenOf(t[1..], parent)
  }

  /** The next level: for each row of the previous one, with repetition, its children. */
  function Join(t: Table, level: seq<Id>): seq<Id> {
    if level == [] then [] else ChildrenOf(t, level[0]) + Join(t, level[1..])
  }

  function Level(t: Table, roots: set<Id>, n: nat): seq<Id> {
    if n == 0 then Roots(t, roots) else Join(t, Level(t, roots, n - 1))
  }

  /** UNION ALL of the first n levels. */
  function Tree(t: Table, roots: set<Id>, n: nat): seq<Id> {
    if n == 0 then [] else Tree(t, roots, n - 1) + Level(t, roots, n - 1)
  }

  // ----- ancestors -----

  /** The n-th ancestor, every row on the way existing. */
  function Ancestor(t: Table, id: Id, n: nat): (r: Option<Id>)
    ensures r.Some? ==> Has(t, r.value) && Has(t, id)
    decreases n
  {
    if !Has(t, id) then None
    else if n == 0 then Some(id)
    else if RowOf(t, id).parent.None? then None
    else Ancestor(t, RowOf(t, id).parent.value, n - 1)
  }

  ghost predicate IsAncestor(t: Table, above: Id, id: Id) {
    exists n: nat :: Ancestor(t, id, n) == Some(above)
  }

  /** No root lies on a cycle of parents. Cycles elsewhere in the table do not matter. */
  ghost predicate Grounded(t: Table, roots: set<Id>) {
    forall r: Id, n: nat :: r in roots && n > 0 ==> Ancestor(t, r, n) != Some(r)
  }

  lemma {:induction false} AncestorSplits(t: Table, id: Id, m: nat, n: nat)
    requires Ancestor(t, id, m).Some?
    ensures Ancestor(t, id, m + n) == Ancestor(t, Ancestor(t, id, m).value, n)
    decreases m
  {
    if m > 0 {
      AncestorSplits(t, RowOf(t, id).parent.value, m - 1, n);
    }
  }

  lemma AncestorPrefix(t: Table, id: Id, m: nat, n: nat)
    requires m <= n && Ancestor(t, id, n).Some?
    ensures Ancestor(t, id, m).Some?
    decreases m
  {
    if m > 0 {
      AncestorPrefix(t, RowOf(t, id).parent.value, m - 1, n - 1);
    }
  }

  /** An id that comes twice on the way up to another one carries that one into its cycle. */
  lemma RepeatMakesCycle(t: Table, id: Id, m: nat, n: nat, top: nat)
    requires m < n <= top && Ancestor(t, id, top).Some?
    requires Ancestor(t, id, m).Some? && Ancestor(t, id, m) == Ancestor(t, id, n)
    ensures Ancestor(t, Ancestor(t, id, top).value, n - m) == Ancestor(t, id, top)
  {
    var c, d := Ancestor(t, id, m).value, n - m;
    AncestorSplits(t, id, m, d);
    AncestorSplits(t, id, n, top - n);
    AncestorSplits(t, c, d, top - n);
    AncestorSplits(t, c, top - n, d);
  }

  /** On the way up to a root that is on no cycle no id comes twice. */
  lemma ChainIsDistinct(t: Table, roots: set<Id>, id: Id, m: nat, n: nat, top: nat)
    requires Grounded(t, roots) && m < n <= top && IsRoot(roots, Ancestor(t, id, top))
    ensures Ancestor(t, id, m).Some? && Ancestor(t, id, m) != Ancestor(t, id, n)
  {
    AncestorPrefix(t, id, m, top);
    if Ancestor(t, id, m) == Ancestor(t, id, n) {
      RepeatMakesCycle(t, id, m, n, top);
    }
  }

  function Chain(t: Table, id: Id, n: nat): set<Id> {
    var below := if n == 0 then {} else Chain(t, id, n - 1);
    if Ancestor(t, id, n).Some? then below + {Ancestor(t, id, n).value} else below
  }

  lemma TopIsNew(t: Table, roots: set<Id>, id: Id, n: nat, top: nat)
    requires Grounded(t, roots) && n < top && IsRoot(roots, Ancestor(t, id, top))
    ensures Ancestor(t, id, n + 1).Some? && Ancestor(t, id, n + 1).value !in Chain(t, id, n)
  {
    AncestorPrefix(t, id, n + 1, top);
    var x := Ancestor(t, id, n + 1).value;
    if x in Chain(t, id, n) {
      var m := ChainMember(t, id, n, x);
      ChainIsDistinct(t, roots, id, m, n + 1, top);
    }
  }

  lemma {:induction false} ChainSize(t: Table, roots: set<Id>, id: Id, n: nat, top: nat)
    requires Grounded(t, roots) && n <= top && IsRoot(roots, Ancestor(t, id, top))
    ensures |Chain(t, id, n)| == n + 1
    decreases n
  {
    AncestorPrefix(t, id, n, top);
    if n > 0 {
      ChainSize(t, roots, id, n - 1, top);
      TopIsNew(t, roots, id, n - 1, top);
    }
  }

  lemma {:induction false} ChainOfIds(t: Table, id: Id, n: nat)
    ensures Chain(t, id, n) <= Ids(t)
  {
    if n > 0 {
      ChainOfIds(t, id, n - 1);
    }
  }

  lemma {:induction false} ChainMember(t: Table, id: Id, n: nat, x: Id) returns (m: nat)
    requires x in Chain(t, id, n)
    ensures m <= n && Ancestor(t, id, m) == Some(x)
  {
    m := n;
    if Ancestor(t, id, n) != Some(x) {
      m := ChainMember(t, id, n - 1, x);
    }
  }

  lemma {:induction false} IdsSize(t: Table)
    ensures |Ids(t)| <= |t|
  {
    if t == [] {
      assert Ids(t) == {};
    } else {
      IdsSize(t[1..]);
      assert Ids(t) == {t[0].id} + Ids(t[1..]) by {
        forall id | id in Ids(t) ensures id in {t[0].id} + Ids(t[1..]) {
          var i :| 0 <= i < |t| && t[i].id == id;
          assert i > 0 ==> t[1..][i - 1].id == id;
        }
        forall id | id in Ids(t[1..]) ensures id in Ids(t) {
          var i :| 0 <= i < |t[1..]| && t[1..][i].id == id;
          assert t[i + 1].id == id;
        }
      }
    }
  }

  lemma SubsetSize<T>(a: set<T>, b: set<T>)
    requires a <= b
    ensures |a| <= |b|
  {
    assert |b - a| + |a| == |b| by { assert (b - a) + a == b; }
  }

  /** A way up of distinct ids cannot be longer than the table. */
  lemma NoLongChain(t: Table, roots: set<Id>, id: Id, n: nat)
    requires Grounded(t, roots) && n >= |t|
    ensures !IsRoot(roots, Ancestor(t, id, n))
  {
    if IsRoot(roots, Ancestor(t, id, n)) {
      ChainSize(t, roots, id, n, n);
      ChainOfIds(t, id, n);
      IdsSize(t);
      SubsetSize(Chain(t, id, n), Ids(t));
    }
  }

  // ----- how often a row occurs in each level -----

  function Count(s: seq<Id>, id: Id): nat {
    if s == [] then 0 else (if s[0] == id then 1 else 0) + Count(s[1..], id)
  }

  lemma {:induction false} CountConcat(a: seq<Id>, b: seq<Id>, id: Id)
    ensures Count(a + b, id) == Count(a, id) + Count(b, id)
  {
    if a == [] {
      assert a + b == b;
    } else {
      assert (a + b)[1..] == a[1..] + b;
      CountConcat(a[1..], b, id);
    }
  }

  lemma {:induction false} CountIsMultiplicity(s: seq<Id>, id: Id)
    ensures Count(s, id) == multiset(s)[id]
    ensures id in s <==> Count(s, id) > 0
  {
    if s != [] {
      CountIsMultiplicity(s[1..], id);
      assert s == [s[0]] + s[1..];
    }
  }

  lemma NoTailDuplicate(t: Table)
    requires UniqueIds(t) && t != []
    ensures UniqueIds(t[1..]) && !Has(t[1..], t[0].id)
    ensures forall id :: Has(t, id) <==> id == t[0].id || Has(t[1..], id)
    ensures forall id :: Has(t[1..], id) ==> RowOf(t, id) == RowOf(t[1..], id)
  {
    forall id ensures Has(t, id) <==> id == t[0].id || Has(t[1..], id) {
      if Has(t, id) {
        var i :| 0 <= i < |t| && t[i].id == id;
        assert i > 0 ==> t[1..][i - 1].id == id;
      }
      if Has(t[1..], id) {
        var i :| 0 <= i < |t[1..]| && t[1..][i].id == id;
        assert t[i + 1].id == id;
      }
    }
  }

  predicate IsRoot(roots: set<Id>, a: Option<Id>) {
    a.Some? && a.value in roots
  }

  lemma {:induction false} RootsCount(t: Table, roots: set<Id>, id: Id)
    requires UniqueIds(t)
    ensures Count(Roots(t, roots), id) == if Has(t, id) && id in roots then 1 else 0
  {
    if t != [] {
      NoTailDuplicate(t);
      RootsCount(t[1..], roots, id);
      CountConcat(if t[0].id in roots then [t[0].id] else [], Roots(t[1..], roots), id);
    }
  }

  lemma {:induction false} ChildrenCount(t: Table, parent: Id, id: Id)
    requires UniqueIds(t)
    ensures Count(ChildrenOf(t, parent), id)
         == if Has(t, id) && RowOf(t, id).parent == Some(parent) then 1 else 0
  {
    if t != [] {
      NoTailDuplicate(t);
      ChildrenCount(t[1..], parent, id);
      CountConcat(if t[0].parent == Some(parent) then [t[0].id] else [], ChildrenOf(t[1..], parent), id);
    }
  }

  lemma {:induction false} JoinCount(t: Table, level: seq<Id>, id: Id)
    requires UniqueIds(t)
    ensures Count(Join(t, level), id)
         == if Has(t, id) && RowOf(t, id).parent.Some? then Count(level, RowOf(t, id).parent.value) else 0
  {
    if level != [] {
      ChildrenCount(t, level[0], id);
      JoinCount(t, level[1..], id);
      CountConcat(ChildrenOf(t, level[0]), Join(t, level[1..]), id);
    }
  }

  /** Every row has one parent, so a level holds a row once if its n-th ancestor is a root, else not. */
  lemma {:induction false} LevelCount(t: Table, roots: set<Id>, n: nat, id: Id)
    requires UniqueIds(t)
    ensures Count(Level(t, roots, n), id)
         == if IsRoot(roots, Ancestor(t, id, n)) then 1 else 0
    decreases n
  {
    if n == 0 {
      RootsCount(t, roots, id);
    } else {
      JoinCount(t, Level(t, roots, n - 1), id);
      if Has(t, id) && RowOf(t, id).parent.Some? {
        LevelCount(t, roots, n - 1, RowOf(t, id).parent.value);
      }
    }
  }

  /** When no root is on a cycle, level |permission| is empty and the union is complete. */
  lemma QueryTerminates(t: Table, roots: set<Id>, n: nat)
    requires UniqueIds(t) && Grounded(t, roots) && n >= |t|
    ensures Level(t, roots, n) == []
    ensures Tree(t, roots, n) == Tree(t, roots, |t|)
    decreases n
  {
    var level := Level(t, roots, n);
    if level != [] {
      LevelCount(t, roots, n, level[0]);
      NoLongChain(t, roots, level[0], n);
    }
    if n > |t| {
      QueryTerminates(t, roots, n - 1);
    }
  }

  lemma {:induction false} EmptyStays(t: Table, roots: set<Id>, n: nat, later: nat)
    requires n <= later && Level(t, roots, n) == []
    ensures Level(t, roots, later) == []
    decreases later
  {
    if n < later {
      EmptyStays(t, roots, n, later - 1);
    }
  }

  lemma CycleFillsEveryLevel(t: Table, roots: set<Id>, r: Id, d: nat, n: nat)
    requires UniqueIds(t) && r in roots && d > 0 && Ancestor(t, r, d) == Some(r)
    ensures Level(t, roots, n) != []
  {
    CycleNeverStops(t, roots, r, d, n);
    if Level(t, roots, n) == [] {
      LongerMultiple(n, d);
      EmptyStays(t, roots, n, n * d);
    }
  }

  lemma LongerMultiple(n: nat, d: nat)
    requires d > 0
    ensures n * d >= n
  {
  }

  /** The recursion stops if and only if no root lies on a cycle. */
  lemma QueryTerminatesIff(t: Table, roots: set<Id>)
    requires UniqueIds(t)
    ensures (exists n: nat :: Level(t, roots, n) == []) <==> Grounded(t, roots)
  {
    if Grounded(t, roots) {
      QueryTerminates(t, roots, |t|);
    } else {
      var r: Id, d: nat :| r in roots && d > 0 && Ancestor(t, r, d) == Some(r);
      forall n: nat ensures Level(t, roots, n) != [] {
        CycleFillsEveryLevel(t, roots, r, d, n);
      }
    }
  }

  /** A cycle below a root never lets the recursion stop. */
  lemma CycleNeverStops(t: Table, roots: set<Id>, id: Id, n: nat, m: nat)
    requires UniqueIds(t) && id in roots && n > 0 && Ancestor(t, id, n) == Some(id)
    ensures Level(t, roots, m * n) != []
  {
    RepeatCycle(t, id, n, m);
    LevelCount(t, roots, m * n, id);
  }

  lemma {:induction false} RepeatCycle(t: Table, id: Id, n: nat, m: nat)
    requires n > 0 && Ancestor(t, id, n) == Some(id)
    ensures Ancestor(t, id, m * n) == Some(id)
  {
    if m > 0 {
      RepeatCycle(t, id, n, m - 1);
      assert m * n == n + (m - 1) * n;
      AncestorSplits(t, id, n, (m - 1) * n);
    }
  }

  /** The roots that are the row itself or above it. */
  ghost function RootsAbove(t: Table, roots: set<Id>, id: Id): set<Id> {
    set r | r in roots && IsAncestor(t, r, id)
  }

  ghost function RootsWithin(t: Table, roots: set<Id>, id: Id, n: nat): set<Id> {
    set r | r in roots && exists m: nat :: m < n && Ancestor(t, id, m) == Some(r)
  }

  lemma RootsWithinStep(t: Table, roots: set<Id>, id: Id, n: nat)
    requires Grounded(t, roots)
    ensures |RootsWithin(t, roots, id, n + 1)|
         == |RootsWithin(t, roots, id, n)| + if IsRoot(roots, Ancestor(t, id, n)) then 1 else 0
  {
    var a := Ancestor(t, id, n);
    var before := RootsWithin(t, roots, id, n);
    if a.Some? && a.value in roots {
      if a.value in before {
        var m: nat :| m < n && Ancestor(t, id, m) == Some(a.value);
        ChainIsDistinct(t, roots, id, m, n, n);
      }
      assert RootsWithin(t, roots, id, n + 1) == before + {a.value};
    } else {
      assert RootsWithin(t, roots, id, n + 1) == before;
    }
  }

  /** How many of the first n ancestors are roots. */
  function RootHits(t: Table, roots: set<Id>, id: Id, n: nat): nat {
    if n == 0 then 0 else
    RootHits(t, roots, id, n - 1) + if IsRoot(roots, Ancestor(t, id, n - 1)) then 1 else 0
  }

  lemma {:induction false} TreeCount(t: Table, roots: set<Id>, n: nat, id: Id)
    requires UniqueIds(t)
    ensures Count(Tree(t, roots, n), id) == RootHits(t, roots, id, n)
  {
    if n > 0 {
      var m := n - 1;
      TreeCount(t, roots, m, id);
      LevelCount(t, roots, m, id);
      assert Tree(t, roots, n) == Tree(t, roots, m) + Level(t, roots, m);
      CountConcat(Tree(t, roots, m), Level(t, roots, m), id);
    }
  }

  lemma {:induction false} RootHitsAreDistinct(t: Table, roots: set<Id>, n: nat, id: Id)
    requires Grounded(t, roots)
    ensures RootHits(t, roots, id, n) == |RootsWithin(t, roots, id, n)|
  {
    if n == 0 {
      assert RootsWithin(t, roots, id, 0) == {};
    } else {
      RootHitsAreDistinct(t, roots, n - 1, id);
      RootsWithinStep(t, roots, id, n - 1);
    }
  }

  /**
   What the query returns: each row as often as there are distinct roots at or above it, so
   exactly the reflexive descendants of the existing roots.
   */
  lemma QueryResult(t: Table, roots: set<Id>, id: Id)
    requires UniqueIds(t) && Grounded(t, roots)
    ensures multiset(Tree(t, roots, |t|))[id] == |RootsAbove(t, roots, id)|
    ensures id in Tree(t, roots, |t|) <==> exists r :: r in roots && IsAncestor(t, r, id)
  {
    TreeCount(t, roots, |t|, id);
    RootHitsAreDistinct(t, roots, |t|, id);
    forall r | r in RootsAbove(t, roots, id) ensures r in RootsWithin(t, roots, id, |t|) {
      var n: nat :| Ancestor(t, id, n) == Some(r);
      if n >= |t| {
        NoLongChain(t, roots, id, n);
      }
    }
    assert RootsAbove(t, roots, id) == RootsWithin(t, roots, id, |t|);
    CountIsMultiplicity(Tree(t, roots, |t|), id);
    if r :| r in roots && IsAncestor(t, r, id) {
      assert r in RootsAbove(t, roots, id);
    }
  }
}
