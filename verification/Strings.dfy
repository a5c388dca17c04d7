/** The parts of Go's strings package that the modelled code relies on. */
module Strings {
  predicate HasPrefix(s: string, prefix: string) {
    prefix <= s
  }

  predicate HasSuffix(s: string, suffix: string) {
    |suffix| <= |s| && s[|s| - |suffix|..] == suffix
  }

  predicate Contains(s: string, sub: string) {
    exists i :: 0 <= i <= |s| && sub <= s[i..]
  }

  /** Position of the first c, or the length when there is none. */
  function Index(s: string, c: char): (i: nat)
    ensures i <= |s| && c !in s[..i] && (i < |s| ==> s[i] == c)
  {
    if s == "" || s[0] == c then 0 else
    var i := Index(s[1..], c) + 1;
    assert s[..i] == [s[0]] + s[1..][..i - 1];
    i
  }

  lemma IndexOfFirst(a: string, c: char, b: string)
    requires c !in a
    ensures Index(a + [c] + b, c) == |a|
  {
    var s := a + [c] + b;
    assert s[|a|] == c && s[..|a|] == a;
  }

  lemma IndexAbsent(s: string, c: char)
    requires c !in s
    ensures Index(s, c) == |s|
  {
  }

  /** strings.Split on one character */
  function Split(s: string, c: char): (parts: seq<string>)
    ensures parts != []
    decreases |s|
  {
    var i := Index(s, c);
    if i == |s| then [s] else [s[..i]] + Split(s[i + 1..], c)
  }

  ghost predicate Lacks(parts: seq<string>, c: char) {
    forall i :: 0 <= i < |parts| ==> c !in parts[i]
  }

  lemma LacksCons(head: string, tail: seq<string>, c: char)
    requires c !in head && Lacks(tail, c)
    ensures Lacks([head] + tail, c)
  {
  }

  lemma LacksOne(s: string, c: char)
    requires c !in s
    ensures Lacks([s], c)
  {
  }

  lemma {:induction false} SplitLacks(s: string, c: char)
    ensures Lacks(Split(s, c), c)
    decreases |s|
  {
    var i := Index(s, c);
    var head := s[..i];
    if i == |s| {
      assert head == s;
      LacksOne(s, c);
    } else {
      SplitLacks(s[i + 1..], c);
      LacksCons(head, Split(s[i + 1..], c), c);
    }
  }

  /** strings.Join with a one-character separator */
  function Join(parts: seq<string>, c: char): string {
    if parts == [] then ""
    else if |parts| == 1 then parts[0]
    else parts[0] + [c] + Join(parts[1..], c)
  }

  lemma {:induction false} SplitJoin(parts: seq<string>, c: char)
    requires parts != [] && Lacks(parts, c)
    ensures Split(Join(parts, c), c) == parts
    decreases |parts|
  {
    if |parts| == 1 {
      IndexAbsent(parts[0], c);
    } else {
      var rest := Join(parts[1..], c);
      IndexOfFirst(parts[0], c, rest);
      var s := parts[0] + [c] + rest;
      assert s[..|parts[0]|] == parts[0] && s[|parts[0]| + 1..] == rest;
      SplitJoin(parts[1..], c);
    }
  }

  lemma JoinInjective(a: seq<string>, b: seq<string>, c: char)
    requires a != [] && b != [] && Lacks(a, c) && Lacks(b, c)
    ensures Join(a, c) == Join(b, c) ==> a == b
  {
    SplitJoin(a, c);
    SplitJoin(b, c);
  }

  lemma JoinCons(head: string, parts: seq<string>, c: char)
    requires parts != []
    ensures Join([head] + parts, c) == head + [c] + Join(parts, c)
  {
    assert ([head] + parts)[1..] == parts;
  }

  /** A character is in a joined string when it is the separator or in a part. */
  lemma {:induction false} JoinMembers(parts: seq<string>, c: char, x: char)
    ensures x in Join(parts, c) <==> (x == c && |parts| > 1) || exists p :: p in parts && x in p
  {
    if |parts| > 1 {
      JoinMembers(parts[1..], c, x);
      assert parts == [parts[0]] + parts[1..];
      assert forall p :: p in parts <==> p == parts[0] || p in parts[1..];
    }
  }
}
