/**
 The fluent condition builder (pkg/repository/query.go:37-114, 266-329): calls append nodes and
 set the pending join; toBuilderCond compiles the nodes; the meaning is a left fold of the calls.
 */
module QueryBuilder {
  import opened Wrappers

  datatype Join = JoinAnd | JoinOr

  datatype Op = Eq | Ne | Gt | Lt | Ge | Le | Like | In | NotIn | Unsupported

  datatype Condition = Condition(field: string, op: Op, value: string)

  datatype Node = Leaf(join: Join, cond: Condition) | Group(join: Join, children: seq<Node>)

  // The SQL condition: builder.Cond without its text.
  datatype Cond = Atom(cond: Condition) | And(left: Cond, right: Cond) | Or(left: Cond, right: Cond)

  // The calls a chain makes; a group carries the calls its function makes on the child builder.
  datatype Call =
    | Where(cond: Condition)
    | AndNext
    | OrNext
    | AndGroup(calls: seq<Call>)
    | OrGroup(calls: seq<Call>)

  // ----- compiling -----

  function Combine(acc: Option<Cond>, join: Join, part: Option<Cond>): Option<Cond> {
    if part.None? then acc
    else if acc.None? then part
    else if join == JoinOr then Some(Or(acc.value, part.value))
    else Some(And(acc.value, part.value))
  }

  function CompileFrom(acc: Option<Cond>, nodes: seq<Node>): Option<Cond>
    decreases nodes, 1
  {
    if nodes == [] then acc
    else CompileFrom(Combine(acc, nodes[0].join, CompileNode(nodes[0])), nodes[1..])
  }

  function CompileNode(n: Node): Option<Cond>
    decreases n, 0
  {
    match n
    case Leaf(_, cond) => if cond.op.Unsupported? then None else Some(Atom(cond))
    case Group(_, children) => CompileFrom(None, children)
  }

  // ----- building -----

  datatype Builder = Builder(nodes: seq<Node>, next: Join)

  const NEW := Builder([], JoinAnd)

  function AddGroup(b: Builder, join: Join, children: seq<Node>): Builder {
    if children == [] then b else Builder(b.nodes + [Group(join, children)], JoinAnd)
  }

  function Build(b: Builder, calls: seq<Call>): Builder
    decreases calls, 1
  {
    if calls == [] then b else Build(BuildOne(b, calls[0]), calls[1..])
  }

  function BuildOne(b: Builder, call: Call): Builder
    decreases call, 0
  {
    match call
    case Where(cond) => Builder(b.nodes + [Leaf(b.next, cond)], JoinAnd)
    case AndNext => b.(next := JoinAnd)
    case OrNext => b.(next := JoinOr)
    case AndGroup(calls) => AddGroup(b, JoinAnd, Build(NEW, calls).nodes)
    case OrGroup(calls) => AddGroup(b, JoinOr, Build(NEW, calls).nodes)
  }

  // ----- the meaning of the calls, without nodes -----

  // Truth of each single condition on the row at hand.
  type Truth = Condition -> bool

  // What has been said so far (nothing, or a truth value), the join pending for the next
  // condition, and whether any condition or non-empty group has been added.
  datatype Meaning = Meaning(said: Option<bool>, next: Join, touched: bool)

  function Say(said: Option<bool>, join: Join, part: Option<bool>): Option<bool> {
    if part.None? then said
    else if said.None? then part
    else if join == JoinOr then Some(said.value || part.value)
    else Some(said.value && part.value)
  }

  function Fold(truth: Truth, m: Meaning, calls: seq<Call>): Meaning
    decreases calls, 1
  {
    if calls == [] then m else Fold(truth, FoldOne(truth, m, calls[0]), calls[1..])
  }

  function FoldOne(truth: Truth, m: Meaning, call: Call): Meaning
    decreases call, 0
  {
    match call
    case Where(cond) =>
      Meaning(Say(m.said, m.next, if cond.op.Unsupported? then None else Some(truth(cond))), JoinAnd, true)
    case AndNext => m.(next := JoinAnd)
    case OrNext => m.(next := JoinOr)
    case AndGroup(calls) => FoldGroup(m, JoinAnd, Fold(truth, Meaning(None, JoinAnd, false), calls))
    case OrGroup(calls) => FoldGroup(m, JoinOr, Fold(truth, Meaning(None, JoinAnd, false), calls))
  }

  /** A group counts as one part under the join of its own method; an untouched group is nothing. */
  function FoldGroup(m: Meaning, join: Join, inner: Meaning): Meaning {
    if !inner.touched then m else Meaning(Say(m.said, join, inner.said), JoinAnd, true)
  }

  function Eval(truth: Truth, c: Cond): bool {
    match c
    case Atom(cond) => truth(cond)
    case And(l, r) => Eval(truth, l) && Eval(truth, r)
    case Or(l, r) => Eval(truth, l) || Eval(truth, r)
  }

  function EvalOpt(truth: Truth, c: Option<Cond>): Option<bool> {
    if c.None? then None else Some(Eval(truth, c.value))
  }

  /** The nodes of a builder mean what has been said so far. */
  ghost predicate Represents(truth: Truth, b: Builder, m: Meaning) {
    && EvalOpt(truth, CompileFrom(None, b.nodes)) == m.said
    && b.next == m.next
    && (b.nodes != [] <==> m.touched)
  }

  lemma {:induction false} CompileSnoc(acc: Option<Cond>, nodes: seq<Node>, n: Node)
    ensures CompileFrom(acc, nodes + [n]) == Combine(CompileFrom(acc, nodes), n.join, CompileNode(n))
    decreases |nodes|
  {
    if nodes == [] {
      assert [] + [n] == [n] && [n][1..] == [];
    } else {
      assert (nodes + [n])[1..] == nodes[1..] + [n];
      CompileSnoc(Combine(acc, nodes[0].join, CompileNode(nodes[0])), nodes[1..], n);
    }
  }

  lemma CombineMeans(truth: Truth, acc: Option<Cond>, join: Join, part: Option<Cond>)
    ensures EvalOpt(truth, Combine(acc, join, part)) == Say(EvalOpt(truth, acc), join, EvalOpt(truth, part))
  {}

  lemma {:induction false} BuildRepresents(truth: Truth, b: Builder, m: Meaning, calls: seq<Call>)
    requires Represents(truth, b, m)
    ensures Represents(truth, Build(b, calls), Fold(truth, m, calls))
    decreases calls, 1
  {
    if calls != [] {
      BuildOneRepresents(truth, b, m, calls[0]);
      BuildRepresents(truth, BuildOne(b, calls[0]), FoldOne(truth, m, calls[0]), calls[1..]);
    }
  }

  lemma {:induction false} BuildOneRepresents(truth: Truth, b: Builder, m: Meaning, call: Call)
    requires Represents(truth, b, m)
    ensures Represents(truth, BuildOne(b, call), FoldOne(truth, m, call))
    decreases call, 0
  {
    match call
    case Where(cond) => AppendRepresents(truth, b, Leaf(b.next, cond));
    case AndNext =>
    case OrNext =>
    case AndGroup(calls) =>
      BuildRepresents(truth, NEW, Meaning(None, JoinAnd, false), calls);
      AppendRepresents(truth, b, Group(JoinAnd, Build(NEW, calls).nodes));
    case OrGroup(calls) =>
      BuildRepresents(truth, NEW, Meaning(None, JoinAnd, false), calls);
      AppendRepresents(truth, b, Group(JoinOr, Build(NEW, calls).nodes));
  }

  lemma AppendRepresents(truth: Truth, b: Builder, n: Node)
    ensures EvalOpt(truth, CompileFrom(None, b.nodes + [n]))
         == Say(EvalOpt(truth, CompileFrom(None, b.nodes)), n.join, EvalOpt(truth, CompileNode(n)))
  {
    CompileSnoc(None, b.nodes, n);
    CombineMeans(truth, CompileFrom(None, b.nodes), n.join, CompileNode(n));
  }

  /** For every chain with arbitrarily nested groups, the compiled condition is the left fold of the calls. */
  lemma CompiledMeaning(truth: Truth, calls: seq<Call>)
    ensures EvalOpt(truth, CompileFrom(None, Build(NEW, calls).nodes))
         == Fold(truth, Meaning(None, JoinAnd, false), calls).said
  {
    BuildRepresents(truth, NEW, Meaning(None, JoinAnd, false), calls);
  }

  const START := Meaning(None, JoinAnd, false)

  /** What a whole chain means; none when it says nothing. */
  function MeaningOf(truth: Truth, calls: seq<Call>): Option<bool> {
    Fold(truth, START, calls).said
  }

  lemma {:induction false} FoldConcat(truth: Truth, m: Meaning, a: seq<Call>, b: seq<Call>)
    ensures Fold(truth, m, a + b) == Fold(truth, Fold(truth, m, a), b)
    decreases |a|
  {
    if a == [] {
      assert a + b == b;
    } else {
      assert (a + b)[1..] == a[1..] + b;
      FoldConcat(truth, FoldOne(truth, m, a[0]), a[1..], b);
    }
  }

  /** What the compiled condition of a chain says of a row; none when there is no condition. */
  function Compiled(truth: Truth, calls: seq<Call>): Option<bool> {
    EvalOpt(truth, CompileFrom(None, Build(NEW, calls).nodes))
  }

  lemma CompiledSnoc(truth: Truth, calls: seq<Call>, last: Call)
    ensures Compiled(truth, calls + [last]) == FoldOne(truth, Fold(truth, START, calls), last).said
    ensures Fold(truth, START, calls + [last]) == FoldOne(truth, Fold(truth, START, calls), last)
  {
    CompiledMeaning(truth, calls + [last]);
    FoldConcat(truth, START, calls, [last]);
    assert [last][1..] == [];
  }

  /**
   How a chain grows: a condition is joined to all before it by the And or Or called just before, a
   group by the And or Or of its own method, as if the chain and the group stood in parentheses.
   */
  lemma ChainGrows(truth: Truth, calls: seq<Call>, cond: Condition, inner: seq<Call>)
    requires Compiled(truth, calls).Some? && Compiled(truth, inner).Some? && !cond.op.Unsupported?
    ensures var (a, b) := (Compiled(truth, calls).value, Compiled(truth, inner).value);
            && Compiled(truth, calls + [AndNext] + [Where(cond)]) == Some(a && truth(cond))
            && Compiled(truth, calls + [OrNext] + [Where(cond)]) == Some(a || truth(cond))
            && Compiled(truth, calls + [AndGroup(inner)]) == Some(a && b)
            && Compiled(truth, calls + [OrGroup(inner)]) == Some(a || b)
  {
    CompiledMeaning(truth, calls);
    CompiledMeaning(truth, inner);
    SaysIsTouched(truth, START, inner);
    CompiledSnoc(truth, calls, AndNext);
    CompiledSnoc(truth, calls, OrNext);
    CompiledSnoc(truth, calls + [AndNext], Where(cond));
    CompiledSnoc(truth, calls + [OrNext], Where(cond));
    CompiledSnoc(truth, calls, AndGroup(inner));
    CompiledSnoc(truth, calls, OrGroup(inner));
  }

  /** After a condition or a group the next condition is joined by And again; and the first one stands for itself. */
  lemma JoinIsReset(truth: Truth, calls: seq<Call>, cond: Condition, last: Call)
    requires !cond.op.Unsupported?
    requires match last { case Where(c) => !c.op.Unsupported? case AndNext => false case OrNext => false case _ => Compiled(truth, last.calls).Some? }
    ensures Compiled(truth, [Where(cond)]) == Some(truth(cond))
    ensures var before := Compiled(truth, calls + [last]);
            before.Some? && Compiled(truth, calls + [last] + [Where(cond)]) == Some(before.value && truth(cond))
  {
    assert [] + [Where(cond)] == [Where(cond)];
    CompiledSnoc(truth, [], Where(cond));
    if !last.Where? {
      CompiledMeaning(truth, last.calls);
      SaysIsTouched(truth, START, last.calls);
    }
    CompiledSnoc(truth, calls, last);
    CompiledSnoc(truth, calls + [last], Where(cond));
  }

  lemma {:induction false} SaysIsTouched(truth: Truth, m: Meaning, calls: seq<Call>)
    requires m.said.Some? ==> m.touched
    ensures Fold(truth, m, calls).said.Some? ==> Fold(truth, m, calls).touched
    decreases |calls|
  {
    if calls != [] {
      SaysIsTouched(truth, FoldOne(truth, m, calls[0]), calls[1..]);
    }
  }

  /** A group without conditions changes nothing. */
  lemma EmptyGroup(truth: Truth, m: Meaning, calls: seq<Call>)
    requires forall k :: 0 <= k < |calls| ==> calls[k].AndNext? || calls[k].OrNext?
    ensures FoldOne(truth, m, AndGroup(calls)) == m == FoldOne(truth, m, OrGroup(calls))
  {
    JoinsOnly(truth, Meaning(None, JoinAnd, false), calls);
  }

  lemma {:induction false} JoinsOnly(truth: Truth, m: Meaning, calls: seq<Call>)
    requires forall k :: 0 <= k < |calls| ==> calls[k].AndNext? || calls[k].OrNext?
    ensures Fold(truth, m, calls).said == m.said && Fold(truth, m, calls).touched == m.touched
    decreases |calls|
  {
    if calls != [] {
      JoinsOnly(truth, FoldOne(truth, m, calls[0]), calls[1..]);
    }
  }

  // ----- unsupported operators -----

  /** The two have said the same and will take the next condition alike. */
  predicate Alike(m: Meaning, n: Meaning) {
    m.said == n.said && (m.next == n.next || m.said.None?)
  }

  lemma {:induction false} AlikeStays(truth: Truth, m: Meaning, n: Meaning, calls: seq<Call>)
    requires Alike(m, n)
    ensures Alike(Fold(truth, m, calls), Fold(truth, n, calls))
    decreases |calls|
  {
    if calls != [] {
      AlikeStays(truth, FoldOne(truth, m, calls[0]), FoldOne(truth, n, calls[0]), calls[1..]);
    }
  }

  /** What is pending after some calls, and whether anything has been said, does not depend on any row. */
  lemma {:induction false} SameFormAs(truth: Truth, other: Truth, m: Meaning, n: Meaning, calls: seq<Call>)
    requires m.next == n.next && m.touched == n.touched && (m.said.Some? <==> n.said.Some?)
    ensures var a, b := Fold(truth, m, calls), Fold(other, n, calls);
            a.next == b.next && a.touched == b.touched && (a.said.Some? <==> b.said.Some?)
    decreases calls, 1
  {
    if calls != [] {
      SameFormOne(truth, other, m, n, calls[0]);
      SameFormAs(truth, other, FoldOne(truth, m, calls[0]), FoldOne(other, n, calls[0]), calls[1..]);
    }
  }

  lemma {:induction false} SameFormOne(truth: Truth, other: Truth, m: Meaning, n: Meaning, call: Call)
    requires m.next == n.next && m.touched == n.touched && (m.said.Some? <==> n.said.Some?)
    ensures var a, b := FoldOne(truth, m, call), FoldOne(other, n, call);
            a.next == b.next && a.touched == b.touched && (a.said.Some? <==> b.said.Some?)
    decreases call, 0
  {
    match call
    case AndGroup(calls) => SameFormAs(truth, other, START, START, calls);
    case OrGroup(calls) => SameFormAs(truth, other, START, START, calls);
    case _ =>
  }

  /** The longest field name of a chain's conditions. */
  function LongestField(calls: seq<Call>): nat
    decreases calls, 1
  {
    if calls == [] then 0 else
    var a, b := LongestOne(calls[0]), LongestField(calls[1..]);
    if a >= b then a else b
  }

  function LongestOne(call: Call): nat
    decreases call, 0
  {
    match call
    case Where(cond) => |cond.field|
    case AndGroup(calls) => LongestField(calls)
    case OrGroup(calls) => LongestField(calls)
    case _ => 0
  }

  /** Where all its conditions hold, a chain that says something is true. */
  lemma {:induction false} AllTrue(truth: Truth, n: nat, m: Meaning, calls: seq<Call>)
    requires (forall c: Condition :: |c.field| <= n ==> truth(c)) && LongestField(calls) <= n && m.said in {None, Some(true)}
    ensures Fold(truth, m, calls).said in {None, Some(true)}
    decreases calls, 1
  {
    if calls != [] {
      AllTrueOne(truth, n, m, calls[0]);
      AllTrue(truth, n, FoldOne(truth, m, calls[0]), calls[1..]);
    }
  }

  lemma {:induction false} AllTrueOne(truth: Truth, n: nat, m: Meaning, call: Call)
    requires (forall c: Condition :: |c.field| <= n ==> truth(c)) && LongestOne(call) <= n && m.said in {None, Some(true)}
    ensures FoldOne(truth, m, call).said in {None, Some(true)}
    decreases call, 0
  {
    match call
    case AndGroup(calls) => AllTrue(truth, n, START, calls);
    case OrGroup(calls) => AllTrue(truth, n, START, calls);
    case _ =>
  }

  /** Without the unsupported condition, every chain that begins so means the same on every row. */
  ghost predicate Droppable(before: seq<Call>, cond: Condition) {
    forall truth, rest :: DropsFrom(truth, before, cond, rest)
  }

  ghost predicate DropsFrom(truth: Truth, before: seq<Call>, cond: Condition, rest: seq<Call>) {
    MeaningOf(truth, before + [Where(cond)] + rest) == MeaningOf(truth, before + rest)
  }

  lemma DropStep(truth: Truth, before: seq<Call>, cond: Condition, rest: seq<Call>)
    requires cond.op.Unsupported?
    ensures var m := Fold(truth, START, before);
            && MeaningOf(truth, before + rest) == Fold(truth, m, rest).said
            && MeaningOf(truth, before + [Where(cond)] + rest) == Fold(truth, Meaning(m.said, JoinAnd, true), rest).said
  {
    var m := Fold(truth, START, before);
    FoldConcat(truth, START, before, rest);
    FoldConcat(truth, START, before + [Where(cond)], rest);
    FoldConcat(truth, START, before, [Where(cond)]);
    assert [Where(cond)][1..] == [];
    assert Fold(truth, m, [Where(cond)]) == FoldOne(truth, m, Where(cond));
  }

  /**
   An unsupported condition says nothing itself but takes the pending join away. It can be dropped
   from a chain, whatever follows, if and only if no Or is pending or nothing has been said before
   it; in particular among filters, which never set an Or.
   */
  lemma DroppableIff(before: seq<Call>, cond: Condition)
    requires cond.op.Unsupported?
    ensures Droppable(before, cond) <==>
            var m := Fold((_: Condition) => true, START, before); m.next == JoinAnd || m.said.None?
  {
    var all: Truth := (_: Condition) => true;
    var m := Fold(all, START, before);
    if m.next == JoinAnd || m.said.None? {
      forall truth, rest ensures DropsFrom(truth, before, cond, rest) {
        DropStep(truth, before, cond, rest);
        SameFormAs(truth, all, START, START, before);
        var n := Fold(truth, START, before);
        AlikeStays(truth, Meaning(n.said, JoinAnd, true), n, rest);
      }
    } else {
      NotDroppable(before, cond);
    }
  }

  /** A condition on a field that the chain does not mention, false where all others hold, tells the two apart. */
  lemma NotDroppable(before: seq<Call>, cond: Condition)
    requires cond.op.Unsupported?
    requires var m := Fold((_: Condition) => true, START, before); m.next == JoinOr && m.said.Some?
    ensures !Droppable(before, cond)
  {
    var n := LongestField(before);
    var last := Condition(seq(n + 1, _ => 'x'), Eq, "");
    var truth: Truth := (c: Condition) => |c.field| <= n;
    var rest := [Where(last)];
    DropStep(truth, before, cond, rest);
    AllTrue(truth, n, START, before);
    SameFormAs(truth, (_: Condition) => true, START, START, before);
    var m := Fold(truth, START, before);
    assert m.said == Some(true) && m.next == JoinOr;
    assert rest[1..] == [];
    assert Fold(truth, m, rest).said == Some(true);
    assert Fold(truth, Meaning(m.said, JoinAnd, true), rest).said == Some(false);
    assert !DropsFrom(truth, before, cond, rest);
  }

  // ----- applyFilters -----

  function Filters(filters: seq<Condition>): (r: seq<Call>)
    ensures |r| == |filters| && forall i :: 0 <= i < |r| ==> r[i] == Where(filters[i])
  {
    if filters == [] then [] else [Where(filters[0])] + Filters(filters[1..])
  }

  ghost predicate AllHold(truth: Truth, filters: seq<Condition>) {
    forall f :: f in filters && !f.op.Unsupported? ==> truth(f)
  }

  ghost predicate AnySupported(filters: seq<Condition>) {
    exists f :: f in filters && !f.op.Unsupported?
  }

  lemma {:induction false} FiltersConjoin(truth: Truth, said: Option<bool>, touched: bool, filters: seq<Condition>)
    ensures var r := Fold(truth, Meaning(said, JoinAnd, touched), Filters(filters));
            && r.next == JoinAnd
            && (r.said.Some? <==> said.Some? || AnySupported(filters))
            && (r.said.Some? ==> (r.said.value <==> (said.None? || said.value) && AllHold(truth, filters)))
    decreases |filters|
  {
    if filters != [] {
      var m := FoldOne(truth, Meaning(said, JoinAnd, touched), Where(filters[0]));
      FiltersConjoin(truth, m.said, m.touched, filters[1..]);
      assert Filters(filters)[1..] == Filters(filters[1..]);
      assert forall f :: f in filters <==> f == filters[0] || f in filters[1..];
    }
  }

  /**
   The filters built from a model mean the conjunction of the supported ones, and no condition
   when there are none; so their order does not matter.
   */
  lemma FiltersAreAConjunction(truth: Truth, filters: seq<Condition>, other: seq<Condition>)
    requires multiset(filters) == multiset(other)
    ensures var c := EvalOpt(truth, CompileFrom(None, Build(NEW, Filters(filters)).nodes));
            && c == (if AnySupported(filters) then Some(AllHold(truth, filters)) else None)
            && c == EvalOpt(truth, CompileFrom(None, Build(NEW, Filters(other)).nodes))
  {
    CompiledMeaning(truth, Filters(filters));
    CompiledMeaning(truth, Filters(other));
    FiltersConjoin(truth, None, false, filters);
    FiltersConjoin(truth, None, false, other);
    assert forall f :: f in filters <==> f in multiset(filters);
    assert forall f :: f in other <==> f in multiset(other);
  }

  // ----- the code as it runs -----

  /** toBuilderCond */
  method ToBuilderCond(nodes: seq<Node>) returns (result: Option<Cond>)
    ensures result == CompileFrom(None, nodes)
    decreases nodes, 1
  {
    result := None;
    var i := 0;
    while i < |nodes|
      invariant 0 <= i <= |nodes|
      invariant CompileFrom(result, nodes[i..]) == CompileFrom(None, nodes)
    {
      assert nodes[i..][0] == nodes[i] && nodes[i..][1..] == nodes[i + 1..];
      var part := NodeToCond(nodes[i]);
      if part.Some? {
        if result.None? {
          result := part;
        } else if nodes[i].join == JoinOr {
          result := Some(Or(result.value, part.value));
        } else {
          result := Some(And(result.value, part.value));
        }
      }
      i := i + 1;
    }
  }

  method NodeToCond(n: Node) returns (r: Option<Cond>)
    ensures r == CompileNode(n)
    decreases n, 0
  {
    match n {
      case Group(_, children) => r := ToBuilderCond(children);
      case Leaf(_, cond) => r := if cond.op.Unsupported? then None else Some(Atom(cond));
    }
  }

  class QueryBuilder {
    var nodes: seq<Node>
    var next: Join

    constructor ()
      ensures Value() == NEW
    {
      nodes, next := [], JoinAnd;
    }

    function Value(): Builder
      reads this
    {
      Builder(nodes, next)
    }

    method Where(cond: Condition)
      modifies this
      ensures Value() == BuildOne(old(Value()), Call.Where(cond))
    {
      nodes := nodes + [Leaf(next, cond)];
      next := JoinAnd;
    }

    /** group: the function runs on a fresh child builder whose nodes become one node here. */
    method AddGroup(join: Join, calls: seq<Call>)
      modifies this
      ensures Value() == BuildOne(old(Value()), if join == JoinOr then OrGroup(calls) else AndGroup(calls))
      decreases calls, 2
    {
      var child := new QueryBuilder();
      child.Chain(calls);
      if |child.nodes| == 0 {
        return;
      }
      nodes := nodes + [Group(join, child.nodes)];
      next := JoinAnd;
    }

    method Chain(calls: seq<Call>)
      modifies this
      ensures Value() == Build(old(Value()), calls)
      decreases calls, 1
    {
      if calls == [] {
        return;
      }
      match calls[0] {
        case Where(cond) => Where(cond);
        case AndNext => next := JoinAnd;
        case OrNext => next := JoinOr;
        case AndGroup(inner) => AddGroup(JoinAnd, inner);
        case OrGroup(inner) => AddGroup(JoinOr, inner);
      }
      Chain(calls[1..]);
    }

    method ApplyFilters(filters: seq<Condition>)
      modifies this
      ensures Value() == Build(old(Value()), Filters(filters))
    {
      var i := 0;
      while i < |filters|
        invariant 0 <= i <= |filters|
        invariant Build(Value(), Filters(filters[i..])) == Build(old(Value()), Filters(filters))
      {
        assert Filters(filters[i..])[1..] == Filters(filters[i + 1..]) by {
          assert filters[i..][1..] == filters[i + 1..];
        }
        Where(filters[i]);
        i := i + 1;
      }
    }
  }
}
