/**
 Log redaction (internal/platform/middleware/logger.go:261-307, 327-332): what is left of a JSON
 body before it is logged. An object is the sequence of its fields in the order one run
 iterates over them.
 */
module Redaction {
  import opened Wrappers
  import Strings

  datatype Json =
    | Null
    | Bool(b: bool)
    | Num(value: real)
    | Str(s: string)
    | Arr(items: seq<Json>)
    | Obj(fields: seq<Field>)

  datatype Field = Field(key: string, value: Json)

  // maxBytes bounds a logged string; sensitive holds lower-case substrings of field names; lower
  // is strings.ToLower, of which nothing is assumed.
  datatype Config = Config(maxBytes: nat, sensitive: seq<string>, lower: string -> string)

  const MAX_DEPTH: nat := 8
  const MAX_FIELDS: nat := 64
  const SUFFIX := "...[truncated]"
  const MARKER := "_truncated_fields"
  const MASK := "****"
  const TOO_DEEP := "[max_depth]"

  predicate Sensitive(c: Config, key: string) {
    exists i :: 0 <= i < |c.sensitive| && Strings.Contains(c.lower(key), c.sensitive[i])
  }

  /** A field name is sensitive when one of the words occurs anywhere in it, in whatever case. */
  lemma SensitiveIff(c: Config, key: string)
    ensures Sensitive(c, key) <==> exists a, word, b :: word in c.sensitive && c.lower(key) == a + word + b
  {
    var lower := c.lower(key);
    if Sensitive(c, key) {
      var i :| 0 <= i < |c.sensitive| && Strings.Contains(lower, c.sensitive[i]);
      var j :| 0 <= j <= |lower| && c.sensitive[i] <= lower[j..];
      assert lower == lower[..j] + c.sensitive[i] + lower[j + |c.sensitive[i]|..];
    }
    if a, word, b :| word in c.sensitive && lower == a + word + b {
      assert lower[|a|..] == word + b;
    }
  }

  function Truncate(c: Config, s: string): string {
    if |s| <= c.maxBytes then s else s[..c.maxBytes] + SUFFIX
  }

  /** Index of a key, or the length when it is absent. */
  function Position(fields: seq<Field>, key: string): (p: nat)
    ensures p <= |fields| && (p < |fields| ==> fields[p].key == key)
  {
    if fields == [] || fields[0].key == key then 0 else Position(fields[1..], key) + 1
  }

  /** out[key] = value on a map kept in insertion order. */
  function Put(fields: seq<Field>, key: string, value: Json): seq<Field> {
    var p := Position(fields, key);
    if p < |fields| then fields[p := Field(key, value)] else fields + [Field(key, value)]
  }

  function First<T>(xs: seq<T>): seq<T> {
    if |xs| <= MAX_FIELDS then xs else xs[..MAX_FIELDS]
  }

  function Redact(c: Config, v: Json, depth: nat): Json
    decreases MAX_DEPTH + 1 - depth, 1
  {
    if depth > MAX_DEPTH then Str(TOO_DEEP) else
    match v
    case Obj(fields) =>
      var kept := RedactFields(c, First(fields), depth);
      Obj(if |fields| > MAX_FIELDS then Put(kept, MARKER, Str(SUFFIX)) else kept)
    case Arr(items) =>
      var n := |First(items)|;
      Arr(seq(n, i requires 0 <= i < n => Redact(c, items[i], depth + 1)))
    case Str(s) => Str(Truncate(c, s))
    case _ => v
  }

  function RedactFields(c: Config, fields: seq<Field>, depth: nat): (r: seq<Field>)
    requires depth <= MAX_DEPTH
    decreases MAX_DEPTH + 1 - depth, 0
  {
    seq(|fields|, i requires 0 <= i < |fields| =>
      Field(fields[i].key, if Sensitive(c, fields[i].key) then Str(MASK) else Redact(c, fields[i].value, depth + 1)))
  }

  // Non-interference.

  /** The same tree except for what is stored under sensitive keys. */
  ghost predicate SameOutsideSecrets(c: Config, a: Json, b: Json)
    decreases a
  {
    match a
    case Obj(fields) =>
      && b.Obj? && |b.fields| == |fields|
      && forall i :: 0 <= i < |fields| ==>
           && fields[i].key == b.fields[i].key
           && (Sensitive(c, fields[i].key) || SameOutsideSecrets(c, fields[i].value, b.fields[i].value))
    case Arr(items) =>
      && b.Arr? && |b.items| == |items|
      && forall i :: 0 <= i < |items| ==> SameOutsideSecrets(c, items[i], b.items[i])
    case _ => a == b
  }

  lemma {:induction false} NonInterference(c: Config, a: Json, b: Json, depth: nat)
    requires SameOutsideSecrets(c, a, b)
    ensures Redact(c, a, depth) == Redact(c, b, depth)
    decreases a
  {
    if depth <= MAX_DEPTH {
      match a
      case Obj(fields) =>
        forall i | 0 <= i < |fields| && !Sensitive(c, fields[i].key)
          ensures Redact(c, fields[i].value, depth + 1) == Redact(c, b.fields[i].value, depth + 1)
        {
          NonInterference(c, fields[i].value, b.fields[i].value, depth + 1);
        }
        assert RedactFields(c, First(fields), depth) == RedactFields(c, First(b.fields), depth);
      case Arr(items) =>
        forall i | 0 <= i < |items|
          ensures Redact(c, items[i], depth + 1) == Redact(c, b.items[i], depth + 1)
        {
          NonInterference(c, items[i], b.items[i], depth + 1);
        }
      case _ =>
    }
  }

  // Bounds on what is logged.

  /**
   At most n levels of containers, at most one field over the limit per object, every string value
   within the byte limit and the suffix, and nothing but the mask or the cut marker under a
   sensitive key.
   */
  ghost predicate Bounded(c: Config, v: Json, n: nat)
    decreases n, 0
  {
    match v
    case Obj(fields) =>
      && n > 0 && |fields| <= MAX_FIELDS + 1
      && forall i :: 0 <= i < |fields| ==> BoundedField(c, fields[i], n - 1)
    case Arr(items) =>
      && n > 0 && |items| <= MAX_FIELDS
      && forall i :: 0 <= i < |items| ==> Bounded(c, items[i], n - 1)
    case Str(s) => |s| <= c.maxBytes + |SUFFIX|
    case _ => true
  }

  ghost predicate BoundedField(c: Config, f: Field, n: nat)
    decreases n, 1
  {
    && Bounded(c, f.value, n)
    && (Sensitive(c, f.key) ==> f.value == Str(MASK) || f == Field(MARKER, Str(SUFFIX)))
  }

  lemma ObjectIsBounded(c: Config, fields: seq<Field>, depth: nat)
    requires depth <= MAX_DEPTH
    requires forall i :: 0 <= i < |First(fields)| ==> BoundedField(c, RedactFields(c, First(fields), depth)[i], MAX_DEPTH - depth)
    ensures Bounded(c, Redact(c, Obj(fields), depth), MAX_DEPTH + 1 - depth)
  {
    assert BoundedField(c, Field(MARKER, Str(SUFFIX)), MAX_DEPTH - depth);
  }

  lemma ArrayIsBounded(c: Config, items: seq<Json>, depth: nat)
    requires depth <= MAX_DEPTH
    requires forall i :: 0 <= i < |First(items)| ==> Bounded(c, Redact(c, items[i], depth + 1), MAX_DEPTH - depth)
    ensures Bounded(c, Redact(c, Arr(items), depth), MAX_DEPTH + 1 - depth)
  {
  }

  lemma {:induction false} OutputIsBounded(c: Config, v: Json, depth: nat)
    ensures Bounded(c, Redact(c, v, depth), if depth > MAX_DEPTH then 0 else MAX_DEPTH + 1 - depth)
    decreases v
  {
    if depth <= MAX_DEPTH {
      match v
      case Obj(fields) =>
        var kept := RedactFields(c, First(fields), depth);
        forall i | 0 <= i < |kept| ensures BoundedField(c, kept[i], MAX_DEPTH - depth) {
          OutputIsBounded(c, fields[i].value, depth + 1);
        }
        ObjectIsBounded(c, fields, depth);
      case Arr(items) =>
        forall i | 0 <= i < |First(items)|
          ensures Bounded(c, Redact(c, items[i], depth + 1), MAX_DEPTH - depth)
        {
          OutputIsBounded(c, items[i], depth + 1);
        }
        ArrayIsBounded(c, items, depth);
      case _ =>
    }
  }

  // What is left as it was.

  /** Nothing in the tree, from a depth on, is too deep, too many, too long or under a sensitive key. */
  ghost predicate Harmless(c: Config, v: Json, depth: nat)
    decreases v
  {
    depth <= MAX_DEPTH &&
    match v
    case Obj(fields) =>
      && |fields| <= MAX_FIELDS
      && forall i :: 0 <= i < |fields| ==> !Sensitive(c, fields[i].key) && Harmless(c, fields[i].value, depth + 1)
    case Arr(items) =>
      && |items| <= MAX_FIELDS
      && forall i :: 0 <= i < |items| ==> Harmless(c, items[i], depth + 1)
    case Str(s) => |s| <= c.maxBytes
    case _ => true
  }

  /** A harmless tree is logged as it is. */
  lemma {:induction false} HarmlessIsKept(c: Config, v: Json, depth: nat)
    requires Harmless(c, v, depth)
    ensures Redact(c, v, depth) == v
    decreases v
  {
    match v
    case Obj(fields) =>
      forall i | 0 <= i < |fields| ensures RedactFields(c, fields, depth)[i] == fields[i] {
        HarmlessIsKept(c, fields[i].value, depth + 1);
      }
      assert RedactFields(c, fields, depth) == fields;
    case Arr(items) =>
      forall i | 0 <= i < |items| ensures Redact(c, items[i], depth + 1) == items[i] {
        HarmlessIsKept(c, items[i], depth + 1);
      }
      assert Redact(c, v, depth).items == items;
    case _ =>
  }

  // A place in a tree: which field or item to go to at each level.
  type Path = seq<nat>

  /** The value at a place. */
  function At(v: Json, path: Path): Option<Json>
    decreases |path|
  {
    if path == [] then Some(v) else
    match v
    case Obj(fields) => if path[0] < |fields| then At(fields[path[0]].value, path[1..]) else None
    case Arr(items) => if path[0] < |items| then At(items[path[0]], path[1..]) else None
    case _ => None
  }

  /** No name on the way is sensitive, and the way keeps to the first fields and items and to places that no marker takes. */
  predicate InTheOpen(c: Config, v: Json, path: Path)
    decreases |path|
  {
    path == [] ||
    match v
    case Obj(fields) =>
      && path[0] < |fields| && path[0] < MAX_FIELDS && !Sensitive(c, fields[path[0]].key)
      && (|fields| > MAX_FIELDS ==> fields[path[0]].key != MARKER)
      && InTheOpen(c, fields[path[0]].value, path[1..])
    case Arr(items) => path[0] < |items| && path[0] < MAX_FIELDS && InTheOpen(c, items[path[0]], path[1..])
    case _ => false
  }

  /**
   What is logged in place of a value: the same, but for the cut of a long string; an object keeps
   the names of its first fields, with the mask under the sensitive ones, and says when it is cut.
   */
  ghost predicate LoggedAs(c: Config, v: Json, r: Json) {
    match v
    case Str(s) => if |s| <= c.maxBytes then r == v else r == Str(s[..c.maxBytes] + SUFFIX)
    case Arr(items) => r.Arr? && |r.items| == if |items| <= MAX_FIELDS then |items| else MAX_FIELDS
    case Obj(fields) =>
      && r.Obj?
      && (|fields| <= MAX_FIELDS ==> |r.fields| == |fields|)
      && (|fields| > MAX_FIELDS ==> Field(MARKER, Str(SUFFIX)) in r.fields)
      && forall i :: 0 <= i < |fields| && i < MAX_FIELDS && (|fields| > MAX_FIELDS ==> fields[i].key != MARKER) ==>
           && i < |r.fields| && r.fields[i].key == fields[i].key
           && (Sensitive(c, fields[i].key) ==> r.fields[i].value == Str(MASK))
    case _ => r == v
  }

  lemma ObjectIsLogged(c: Config, fields: seq<Field>, depth: nat)
    requires depth <= MAX_DEPTH
    ensures LoggedAs(c, Obj(fields), Redact(c, Obj(fields), depth))
  {
    var kept, out := RedactFields(c, First(fields), depth), Redact(c, Obj(fields), depth).fields;
    if |fields| > MAX_FIELDS {
      assert out[Position(kept, MARKER)] == Field(MARKER, Str(SUFFIX));
    }
  }

  /** One step of the way: the field or item that is logged there is the redacted one. */
  lemma StepIsLogged(c: Config, v: Json, path: Path, depth: nat) returns (next: Json)
    requires path != [] && InTheOpen(c, v, path) && depth <= MAX_DEPTH
    ensures InTheOpen(c, next, path[1..]) && At(v, path) == At(next, path[1..])
    ensures At(Redact(c, v, depth), path) == At(Redact(c, next, depth + 1), path[1..])
  {
    match v
    case Obj(fields) =>
      var kept, i := RedactFields(c, First(fields), depth), path[0];
      next := fields[i].value;
      assert kept[i] == Field(fields[i].key, Redact(c, next, depth + 1));
      assert Redact(c, v, depth).fields[i] == kept[i];
    case Arr(items) =>
      next := items[path[0]];
      assert Redact(c, v, depth).items[path[0]] == Redact(c, next, depth + 1);
  }

  /** The same for a value at a depth: one level under the limit there is only a marker. */
  ghost predicate LoggedAt(c: Config, v: Json, r: Json, depth: nat) {
    if depth > MAX_DEPTH then r == Str(TOO_DEEP) else LoggedAs(c, v, r)
  }

  lemma RootIsLogged(c: Config, v: Json, depth: nat)
    ensures LoggedAt(c, v, Redact(c, v, depth), depth)
  {
    if v.Obj? && depth <= MAX_DEPTH {
      ObjectIsLogged(c, v.fields, depth);
    }
  }

  /**
   Whatever else is in the tree, every value in the open that is within the depth limit is logged at
   its place, and what is one level too deep is replaced there.
   */
  lemma {:induction false} OpenIsLogged(c: Config, v: Json, path: Path, depth: nat)
    requires InTheOpen(c, v, path) && depth + |path| <= MAX_DEPTH + 1
    ensures At(v, path).Some? && At(Redact(c, v, depth), path).Some?
    ensures LoggedAt(c, At(v, path).value, At(Redact(c, v, depth), path).value, depth + |path|)
    decreases |path|
  {
    if path != [] {
      var next := StepIsLogged(c, v, path, depth);
      OpenIsLogged(c, next, path[1..], depth + 1);
    } else {
      RootIsLogged(c, v, depth);
    }
  }

  // Redacting twice.

  /** A second pass over a cut marker that took the place of a real field would change it. */
  predicate MarkerRewritten(c: Config, depth: nat) {
    Sensitive(c, MARKER) || 0 < c.maxBytes < |SUFFIX| || depth == MAX_DEPTH
  }

  /** The marker replaces a field that the object really has. */
  predicate MarkerClashes(fields: seq<Field>) {
    |fields| > MAX_FIELDS && Position(First(fields), MARKER) < MAX_FIELDS
  }

  predicate Visited(c: Config, fields: seq<Field>, i: nat)
    requires i < |fields|
  {
    && i < MAX_FIELDS && !Sensitive(c, fields[i].key)
    && !(|fields| > MAX_FIELDS && i == Position(First(fields), MARKER))
  }

  ghost predicate Clash(c: Config, v: Json, depth: nat)
    decreases v
  {
    depth <= MAX_DEPTH &&
    match v
    case Obj(fields) =>
      || (MarkerClashes(fields) && MarkerRewritten(c, depth))
      || exists i :: 0 <= i < |fields| && Visited(c, fields, i) && Clash(c, fields[i].value, depth + 1)
    case Arr(items) =>
      exists i :: 0 <= i < |First(items)| && Clash(c, items[i], depth + 1)
    case _ => false
  }

  lemma {:induction false} SamePosition(a: seq<Field>, b: seq<Field>, key: string)
    requires |a| == |b| && forall i :: 0 <= i < |a| ==> a[i].key == b[i].key
    ensures Position(a, key) == Position(b, key)
  {
    if a != [] {
      SamePosition(a[1..], b[1..], key);
    }
  }

  lemma TruncateTwice(c: Config, s: string)
    ensures Truncate(c, Truncate(c, s)) == Truncate(c, s)
    ensures Truncate(c, SUFFIX) == SUFFIX <==> !(0 < c.maxBytes < |SUFFIX|)
  {
    if |s| > c.maxBytes {
      assert Truncate(c, s)[..c.maxBytes] == s[..c.maxBytes];
    }
    if |SUFFIX| > c.maxBytes > 0 {
      assert |Truncate(c, SUFFIX)| > |SUFFIX|;
    }
  }

  lemma MarkerAgain(c: Config, depth: nat)
    requires depth <= MAX_DEPTH
    ensures RedactFields(c, [Field(MARKER, Str(SUFFIX))], depth)[0] == Field(MARKER, Str(SUFFIX))
            <==> !MarkerRewritten(c, depth)
  {
    TruncateTwice(c, "");
  }

  /** What the second pass does to the fields the first one left. */
  lemma SecondPass(c: Config, fields: seq<Field>, depth: nat)
    requires depth <= MAX_DEPTH
    ensures var kept := RedactFields(c, First(fields), depth);
            var p := Position(First(fields), MARKER);
            var mark := Field(MARKER, Str(SUFFIX));
            var once := Redact(c, Obj(fields), depth);
            var twice := Redact(c, once, depth);
            if MarkerClashes(fields) then
              once == Obj(kept[p := mark]) && twice == Obj(RedactFields(c, kept[p := mark], depth))
            else if |fields| > MAX_FIELDS then
              once == Obj(kept + [mark]) && twice == Obj(RedactFields(c, kept, depth) + [mark])
            else
              once == Obj(kept) && twice == Obj(RedactFields(c, kept, depth))
  {
    var kept := RedactFields(c, First(fields), depth);
    SamePosition(First(fields), kept, MARKER);
    if |fields| > MAX_FIELDS && !MarkerClashes(fields) {
      var once := kept + [Field(MARKER, Str(SUFFIX))];
      assert First(once) == kept;
      SamePosition(kept, RedactFields(c, kept, depth), MARKER);
    }
  }

  /** The induction step of RedactTwiceIff for an object. */
  lemma FieldsTwiceIff(c: Config, fields: seq<Field>, depth: nat)
    requires depth <= MAX_DEPTH
    requires forall i :: 0 <= i < |First(fields)| ==>
               (Settled(c, fields, depth, i) <==> Sensitive(c, fields[i].key) || !Clash(c, fields[i].value, depth + 1))
    ensures var once := Redact(c, Obj(fields), depth);
            Redact(c, once, depth) == once <==> !Clash(c, Obj(fields), depth)
  {
    var kept := RedactFields(c, First(fields), depth);
    var once := Redact(c, Obj(fields), depth).fields;
    var twice := Redact(c, Obj(once), depth).fields;
    var p := Position(First(fields), MARKER);
    SecondPass(c, fields, depth);
    MarkerAgain(c, depth);
    assert |once| == |twice|;
    forall i | 0 <= i < |kept|
      ensures twice[i] == once[i] <==>
              if |fields| > MAX_FIELDS && i == p then !MarkerRewritten(c, depth)
              else !(Visited(c, fields, i) && Clash(c, fields[i].value, depth + 1))
    {
      assert Settled(c, fields, depth, i) || !Settled(c, fields, depth, i);
    }
    if Clash(c, Obj(fields), depth) {
      if MarkerClashes(fields) && MarkerRewritten(c, depth) {
        assert twice[p] != once[p];
      } else {
        var i :| 0 <= i < |fields| && Visited(c, fields, i) && Clash(c, fields[i].value, depth + 1);
        assert twice[i] != once[i];
      }
    } else {
      assert forall i :: 0 <= i < |kept| ==> twice[i] == once[i];
      assert twice == once;
    }
  }

  /** A second pass leaves the i-th field of the object as the first one made it. */
  ghost predicate Settled(c: Config, fields: seq<Field>, depth: nat, i: nat)
    requires depth <= MAX_DEPTH && i < |First(fields)|
  {
    var kept := RedactFields(c, First(fields), depth);
    RedactFields(c, kept, depth)[i] == kept[i]
  }

  /** The induction step for an array. */
  lemma ItemsTwiceIff(c: Config, items: seq<Json>, depth: nat)
    requires depth <= MAX_DEPTH
    requires forall i :: 0 <= i < |First(items)| ==>
               (ItemSettled(c, items[i], depth) <==> !Clash(c, items[i], depth + 1))
    ensures var once := Redact(c, Arr(items), depth);
            Redact(c, once, depth) == once <==> !Clash(c, Arr(items), depth)
  {
    var once := Redact(c, Arr(items), depth).items;
    var twice := Redact(c, Arr(once), depth).items;
    assert |once| == |First(items)| == |twice|;
    forall i | 0 <= i < |once| ensures twice[i] == once[i] <==> ItemSettled(c, items[i], depth) {
      assert once[i] == Redact(c, items[i], depth + 1);
    }
    if twice != once {
      var i :| 0 <= i < |once| && twice[i] != once[i];
      assert Clash(c, items[i], depth + 1);
    }
  }

  ghost predicate ItemSettled(c: Config, item: Json, depth: nat) {
    Redact(c, Redact(c, item, depth + 1), depth + 1) == Redact(c, item, depth + 1)
  }

  /**
   Over a fixed field order redacting twice is redacting once, exactly for the trees in which no
   cut marker has taken the place of a real field where a second pass would change it.
   */
  lemma {:induction false} RedactTwiceIff(c: Config, v: Json, depth: nat)
    ensures Redact(c, Redact(c, v, depth), depth) == Redact(c, v, depth) <==> !Clash(c, v, depth)
    decreases v
  {
    if depth <= MAX_DEPTH {
      match v
      case Obj(fields) =>
        forall i | 0 <= i < |First(fields)|
          ensures Settled(c, fields, depth, i) <==> Sensitive(c, fields[i].key) || !Clash(c, fields[i].value, depth + 1)
        {
          RedactTwiceIff(c, fields[i].value, depth + 1);
        }
        FieldsTwiceIff(c, fields, depth);
      case Arr(items) =>
        forall i | 0 <= i < |First(items)|
          ensures ItemSettled(c, items[i], depth) <==> !Clash(c, items[i], depth + 1)
        {
          RedactTwiceIff(c, items[i], depth + 1);
        }
        ItemsTwiceIff(c, items, depth);
      case Str(s) => TruncateTwice(c, s);
      case _ =>
    }
  }

  // The recursion and its loops.

  /** A decoded object is a map: no key twice. */
  ghost predicate MapLike(v: Json)
    decreases v
  {
    match v
    case Obj(fields) =>
      && (forall i, j :: 0 <= i < j < |fields| ==> fields[i].key != fields[j].key)
      && forall i :: 0 <= i < |fields| ==> MapLike(fields[i].value)
    case Arr(items) => forall i :: 0 <= i < |items| ==> MapLike(items[i])
    case _ => true
  }

  method IsSensitive(c: Config, key: string) returns (hit: bool)
    ensures hit == Sensitive(c, key)
  {
    var lower := c.lower(key);
    for i := 0 to |c.sensitive|
      invariant forall j :: 0 <= j < i ==> !Strings.Contains(lower, c.sensitive[j])
    {
      if Strings.Contains(lower, c.sensitive[i]) {
        return true;
      }
    }
    return false;
  }

  method RedactValue(c: Config, v: Json, depth: nat) returns (r: Json)
    requires MapLike(v)
    ensures r == Redact(c, v, depth)
    decreases v, 1
  {
    if depth > MAX_DEPTH {
      return Str(TOO_DEEP);
    }
    match v
    case Obj(_) =>
      r := RedactObject(c, v, depth);
    case Arr(_) =>
      r := RedactArray(c, v, depth);
    case Str(s) => r := Str(Truncate(c, s));
    case _ => r := v;
  }

  method RedactArray(c: Config, v: Json, depth: nat) returns (r: Json)
    requires v.Arr? && MapLike(v) && depth <= MAX_DEPTH
    ensures r == Redact(c, v, depth)
    decreases v, 0
  {
    var limit := if |v.items| > MAX_FIELDS then MAX_FIELDS else |v.items|;
    var out := [];
    for i := 0 to limit
      invariant |out| == i
      invariant forall j :: 0 <= j < i ==> out[j] == Redact(c, v.items[j], depth + 1)
    {
      var x := RedactValue(c, v.items[i], depth + 1);
      out := out + [x];
    }
    r := Arr(out);
  }

  method RedactObject(c: Config, v: Json, depth: nat) returns (r: Json)
    requires v.Obj? && MapLike(v) && depth <= MAX_DEPTH
    ensures r == Redact(c, v, depth)
    decreases v, 0
  {
    var fields := v.fields;
    var out := [];
    var count := 0;
    while count < |fields|
      invariant 0 <= count <= |fields| && count <= MAX_FIELDS
      invariant out == RedactFields(c, fields[..count], depth)
      decreases |fields| - count
    {
      if count >= MAX_FIELDS {
        break;
      }
      var f := fields[count];
      var value := Str(MASK);
      var hit := IsSensitive(c, f.key);
      if !hit {
        value := RedactValue(c, f.value, depth + 1);
      }
      PutNew(out, f.key, value);
      out := Put(out, f.key, value);
      count := count + 1;
    }
    assert fields[..count] == First(fields);
    if count < |fields| {
      out := Put(out, MARKER, Str(SUFFIX));
    }
    r := Obj(out);
  }

  lemma {:induction false} PutNew(fields: seq<Field>, key: string, value: Json)
    requires forall i :: 0 <= i < |fields| ==> fields[i].key != key
    ensures Put(fields, key, value) == fields + [Field(key, value)]
  {
    assert Position(fields, key) == |fields|;
  }
}
