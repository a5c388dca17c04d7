/**
 Quoting of MySQL identifiers and ORDER BY terms (pkg/repository/query.go:116-157), against a
 lexer that reads the output back.
 */
module Identifiers {
  import opened Wrappers
  import opened Strings

  const TICK := '`'

  // ----- spaces -----

  predicate IsSpace(c: char) {
    c in {' ', '\t', '\n', '\r', '\U{000B}', '\U{000C}', '\U{0085}', '\U{00A0}'}
  }

  predicate SpaceFree(s: string) {
    forall i :: 0 <= i < |s| ==> !IsSpace(s[i])
  }

  function TrimLeft(s: string): (r: string)
    ensures |r| <= |s| && (r != "" ==> !IsSpace(r[0]))
    ensures s != "" && !IsSpace(s[0]) ==> r == s
  {
    if s != "" && IsSpace(s[0]) then TrimLeft(s[1..]) else s
  }

  function TrimRight(s: string): (r: string)
    ensures |r| <= |s| && (r != "" ==> !IsSpace(r[|r| - 1]) && r[0] == s[0])
    ensures s != "" && !IsSpace(s[|s| - 1]) ==> r == s
  {
    if s != "" && IsSpace(s[|s| - 1]) then TrimRight(s[..|s| - 1]) else s
  }

  /** strings.TrimSpace */
  function Trim(s: string): (r: string)
    ensures r != "" ==> !IsSpace(r[0]) && !IsSpace(r[|r| - 1])
    ensures s != "" && !IsSpace(s[0]) && !IsSpace(s[|s| - 1]) ==> r == s
  {
    TrimRight(TrimLeft(s))
  }

  lemma {:induction false} TrimLeftMembers(s: string, x: char)
    requires x in TrimLeft(s)
    ensures x in s
  {
    if s != "" && IsSpace(s[0]) {
      TrimLeftMembers(s[1..], x);
    }
  }

  lemma {:induction false} TrimRightMembers(s: string, x: char)
    requires x in TrimRight(s)
    ensures x in s
  {
    if s != "" && IsSpace(s[|s| - 1]) {
      TrimRightMembers(s[..|s| - 1], x);
    }
  }

  lemma TrimMembers(s: string, x: char)
    ensures x in Trim(s) ==> x in s
  {
    if x in Trim(s) {
      TrimRightMembers(TrimLeft(s), x);
      TrimLeftMembers(s, x);
    }
  }

  ghost predicate Blank(s: string) {
    forall i :: 0 <= i < |s| ==> IsSpace(s[i])
  }

  lemma {:induction false} TrimLeftStrips(s: string) returns (lead: string)
    ensures s == lead + TrimLeft(s) && Blank(lead)
  {
    lead := "";
    if s != "" && IsSpace(s[0]) {
      var rest := TrimLeftStrips(s[1..]);
      lead := [s[0]] + rest;
      assert s == [s[0]] + s[1..];
    }
  }

  lemma {:induction false} TrimRightStrips(s: string) returns (trail: string)
    ensures s == TrimRight(s) + trail && Blank(trail)
  {
    trail := "";
    if s != "" && IsSpace(s[|s| - 1]) {
      var rest := TrimRightStrips(s[..|s| - 1]);
      trail := rest + [s[|s| - 1]];
      assert s == s[..|s| - 1] + [s[|s| - 1]];
    }
  }

  /** What is trimmed is the white space at both ends, all of it and nothing else. */
  lemma TrimStrips(s: string) returns (lead: string, trail: string)
    ensures s == lead + Trim(s) + trail && Blank(lead) && Blank(trail)
    ensures Trim(s) != "" ==> !IsSpace(Trim(s)[0]) && !IsSpace(Trim(s)[|Trim(s)| - 1])
  {
    lead := TrimLeftStrips(s);
    trail := TrimRightStrips(TrimLeft(s));
    assert lead + (Trim(s) + trail) == lead + Trim(s) + trail;
  }

  // ----- quoteIdent -----

  function Count(s: string, c: char): nat {
    if s == "" then 0 else (if s[0] == c then 1 else 0) + Count(s[1..], c)
  }

  predicate AlreadyQuoted(s: string) {
    HasPrefix(s, "`") && HasSuffix(s, "`") && Count(s, TICK) == 2
  }

  /** strings.ReplaceAll(s, "`", "``") */
  function Escape(s: string): (r: string)
    ensures |r| == |s| + Count(s, TICK)
  {
    if s == "" then "" else (if s[0] == TICK then [TICK, TICK] else [s[0]]) + Escape(s[1..])
  }

  function Quote(s: string): string {
    "`" + Escape(s) + "`"
  }

  /** quoteIdent on a name without dots, as it calls itself on each part. */
  function QuoteSegment(segment: string): string {
    var s := Trim(segment);
    if s == "" || s == "*" || AlreadyQuoted(s) then s else Quote(s)
  }

  function QuoteSegments(parts: seq<string>): (r: seq<string>)
    ensures |r| == |parts|
  {
    if parts == [] then [] else [QuoteSegment(parts[0])] + QuoteSegments(parts[1..])
  }

  lemma {:induction false} QuoteSegmentsAt(parts: seq<string>, i: nat)
    requires i < |parts|
    ensures QuoteSegments(parts)[i] == QuoteSegment(parts[i])
  {
    if i > 0 {
      QuoteSegmentsAt(parts[1..], i - 1);
    }
  }

  function QuoteIdent(name: string): string {
    var s := Trim(name);
    if s == "" || s == "*" || AlreadyQuoted(s) then s
    else if '.' in s then Join(QuoteSegments(Split(s, '.')), '.')
    else Quote(s)
  }

  // ----- reading quoted identifiers back -----

  // One part of a dotted name: backquoted, or bare.
  datatype Ident = Bare(text: string) | Quoted(text: string)

  /** Reads after an opening backquote to the closing one; a doubled backquote is a literal one. */
  function LexQuoted(s: string): (r: Option<(string, string)>)
    ensures r.Some? ==> |r.value.1| < |s|
  {
    if s == "" then None
    else if s[0] != TICK then
      var r := LexQuoted(s[1..]);
      if r.None? then None else Some(([s[0]] + r.value.0, r.value.1))
    else if |s| > 1 && s[1] == TICK then
      var r := LexQuoted(s[2..]);
      if r.None? then None else Some(([TICK] + r.value.0, r.value.1))
    else Some(("", s[1..]))
  }

  function LexOne(s: string): (r: Option<(Ident, string)>)
    ensures r.Some? ==> |r.value.1| <= |s|
  {
    if s != "" && s[0] == TICK then
      var r := LexQuoted(s[1..]);
      if r.None? then None else Some((Quoted(r.value.0), r.value.1))
    else
      var i := Index(s, '.');
      Some((Bare(s[..i]), s[i..]))
  }

  /** A dot-separated list of identifiers, to the end of the string. */
  function Lex(s: string): Option<seq<Ident>>
    decreases |s|
  {
    var first := LexOne(s);
    if first.None? then None
    else if first.value.1 == "" then Some([first.value.0])
    else if first.value.1[0] != '.' then None
    else
      var rest := Lex(first.value.1[1..]);
      if rest.None? then None else Some([first.value.0] + rest.value)
  }

  /** What one part of a name stands for. */
  function IdentOf(segment: string): Ident {
    var s := Trim(segment);
    if s == "" || s == "*" then Bare(s)
    else if AlreadyQuoted(s) then QuotedBody(s); Quoted(s[1..|s| - 1])
    else Quoted(s)
  }

  function IdentsOf(name: string): seq<Ident> {
    var s := Trim(name);
    if AlreadyQuoted(s) then [IdentOf(s)] else IdentsOfParts(Split(s, '.'))
  }

  function IdentsOfParts(parts: seq<string>): seq<Ident> {
    if parts == [] then [] else [IdentOf(parts[0])] + IdentsOfParts(parts[1..])
  }

  lemma {:induction false} CountConcat(a: string, b: string, c: char)
    ensures Count(a + b, c) == Count(a, c) + Count(b, c)
  {
    if a == "" {
      assert a + b == b;
    } else {
      assert (a + b)[1..] == a[1..] + b;
      CountConcat(a[1..], b, c);
    }
  }

  lemma {:induction false} CountZero(s: string, c: char)
    ensures Count(s, c) == 0 <==> c !in s
  {
    if s != "" {
      CountZero(s[1..], c);
      assert s == [s[0]] + s[1..];
    }
  }

  lemma QuotedBody(s: string)
    requires AlreadyQuoted(s)
    ensures |s| >= 2 && TICK !in s[1..|s| - 1]
    ensures s == "`" + s[1..|s| - 1] + "`"
  {
    if |s| > 1 {
      var body := s[1..|s| - 1];
      assert s[0] == TICK && s[|s| - 1..] == "`";
      assert s == "`" + body + "`";
      CountConcat("`" + body, "`", TICK);
      CountConcat("`", body, TICK);
      CountZero(body, TICK);
    }
  }

  lemma {:induction false} EscapePlain(s: string)
    requires TICK !in s
    ensures Escape(s) == s
  {
    if s != "" {
      assert s == [s[0]] + s[1..];
      EscapePlain(s[1..]);
    }
  }

  lemma ConcatGroups(a: string, b: string, c: string, d: string)
    ensures (a + b) + c + d == a + (b + c + d)
  {
  }

  lemma LexQuotedTick(tail: string)
    ensures LexQuoted([TICK, TICK] + tail) ==
            if LexQuoted(tail).None? then None else Some(([TICK] + LexQuoted(tail).value.0, LexQuoted(tail).value.1))
  {
    assert ([TICK, TICK] + tail)[2..] == tail;
  }

  lemma LexQuotedOther(c: char, tail: string)
    requires c != TICK
    ensures LexQuoted([c] + tail) ==
            if LexQuoted(tail).None? then None else Some(([c] + LexQuoted(tail).value.0, LexQuoted(tail).value.1))
  {
    assert ([c] + tail)[1..] == tail;
  }

  lemma {:induction false} LexQuotedEscaped(s: string, rest: string)
    requires rest == "" || rest[0] != TICK
    ensures LexQuoted(Escape(s) + "`" + rest) == Some((s, rest))
  {
    var input := Escape(s) + "`" + rest;
    if s == "" {
      assert input == "`" + rest && input[1..] == rest;
    } else {
      LexQuotedEscaped(s[1..], rest);
      var tail := Escape(s[1..]) + "`" + rest;
      assert s == [s[0]] + s[1..];
      var head := if s[0] == TICK then [TICK, TICK] else [s[0]];
      ConcatGroups(head, Escape(s[1..]), "`", rest);
      if s[0] == TICK {
        LexQuotedTick(tail);
      } else {
        LexQuotedOther(s[0], tail);
      }
    }
  }

  lemma LexQuoteBody(body: string, rest: string)
    requires rest == "" || rest[0] == '.'
    ensures LexOne(Quote(body) + rest) == Some((Quoted(body), rest))
  {
    LexQuotedEscaped(body, rest);
    assert (Quote(body) + rest)[1..] == Escape(body) + "`" + rest;
  }

  /** A quoted part reads back as what it stands for, and leaves what follows the dot. */
  lemma LexSegment(segment: string, rest: string)
    requires '.' !in segment
    requires rest == "" || rest[0] == '.'
    ensures LexOne(QuoteSegment(segment) + rest) == Some((IdentOf(segment), rest))
  {
    var s := Trim(segment);
    if s == "" || s == "*" {
      var input := s + rest;
      if rest == "" {
        IndexAbsent(input, '.');
      } else {
        assert input == s + ['.'] + rest[1..];
        IndexOfFirst(s, '.', rest[1..]);
      }
      assert input[..|s|] == s && input[|s|..] == rest;
    } else if AlreadyQuoted(s) {
      QuotedBody(s);
      EscapePlain(s[1..|s| - 1]);
      LexQuoteBody(s[1..|s| - 1], rest);
    } else {
      LexQuoteBody(s, rest);
    }
  }

  lemma {:induction false} LexSegments(parts: seq<string>)
    requires parts != [] && Lacks(parts, '.')
    ensures Lex(Join(QuoteSegments(parts), '.')) == Some(IdentsOfParts(parts))
    decreases |parts|
  {
    var first := QuoteSegment(parts[0]);
    var quoted := QuoteSegments(parts[1..]);
    if |parts| == 1 {
      LexSegment(parts[0], "");
      assert first + "" == first && Join([first], '.') == first;
      assert IdentsOfParts(parts) == [IdentOf(parts[0])];
    } else {
      LexSegments(parts[1..]);
      LexSegment(parts[0], ['.'] + Join(quoted, '.'));
      JoinCons(first, quoted, '.');
      LexDotted(first, IdentOf(parts[0]), Join(quoted, '.'));
    }
  }

  lemma LexDotted(first: string, ident: Ident, rest: string)
    requires LexOne(first + (['.'] + rest)) == Some((ident, ['.'] + rest))
    ensures Lex(first + ['.'] + rest)
         == if Lex(rest).None? then None else Some([ident] + Lex(rest).value)
  {
    assert first + ['.'] + rest == first + (['.'] + rest);
    assert (['.'] + rest)[1..] == rest;
  }

  lemma TrimTrimmed(name: string)
    ensures Trim(Trim(name)) == Trim(name)
  {}

  lemma SplitSingle(s: string, c: char)
    requires c !in s
    ensures Split(s, c) == [s]
  {
    IndexAbsent(s, c);
  }

  /** For every name, lexing the quoted form gives its trimmed parts back, empty and star parts bare. */
  lemma QuoteRoundTrip(name: string)
    ensures Lex(QuoteIdent(name)) == Some(IdentsOf(name))
  {
    var s := Trim(name);
    TrimTrimmed(name);
    if AlreadyQuoted(s) {
      QuotedBody(s);
      EscapePlain(s[1..|s| - 1]);
      LexQuoteBody(s[1..|s| - 1], "");
      assert Quote(s[1..|s| - 1]) + "" == s;
    } else {
      SplitLacks(s, '.');
      LexSegments(Split(s, '.'));
      if '.' !in s {
        SplitSingle(s, '.');
        assert Join(QuoteSegments([s]), '.') == QuoteSegment(s);
      }
    }
  }

  /** A name without spaces, backquotes and dots at its ends and inside. */
  predicate Simple(s: string) {
    s != "" && s != "*" && SpaceFree(s) && TICK !in s && '.' !in s
  }

  lemma SimpleIsQuoted(s: string)
    requires Simple(s)
    ensures QuoteIdent(s) == "`" + s + "`" && QuoteSegment(s) == "`" + s + "`"
  {
    EscapePlain(s);
  }

  lemma DottedParts(table: string, column: string)
    requires '.' !in table && '.' !in column
    ensures Split(table + "." + column, '.') == [table, column]
  {
    IndexOfFirst(table, '.', column);
    IndexAbsent(column, '.');
    var s := table + ['.'] + column;
    assert s == table + "." + column;
    assert s[..|table|] == table && s[|table| + 1..] == column;
  }

  lemma DottedName(table: string, column: string)
    requires Simple(table) && (Simple(column) || column == "*")
    ensures var s := table + "." + column;
            Trim(s) == s && s != "" && s != "*" && '.' in s && !AlreadyQuoted(s)
  {
    var s := table + "." + column;
    assert s[|table|] == '.' && s[0] == table[0] && s[|s| - 1] == column[|column| - 1];
  }

  /** A column of a table and all columns of a table, as callers write them. */
  lemma QualifiedName(table: string, column: string)
    requires Simple(table) && (Simple(column) || column == "*")
    ensures QuoteIdent(column) == if column == "*" then "*" else "`" + column + "`"
    ensures QuoteIdent(table + "." + column) == "`" + table + "`" + "." + QuoteIdent(column)
  {
    SimpleIsQuoted(table);
    if column != "*" {
      SimpleIsQuoted(column);
    }
    DottedName(table, column);
    DottedParts(table, column);
    QuotedPair(table, column);
  }

  lemma QuotedPair(a: string, b: string)
    ensures Join(QuoteSegments([a, b]), '.') == QuoteSegment(a) + "." + QuoteSegment(b)
  {
    assert [a, b][1..] == [b] && [b][1..] == [];
    assert QuoteSegments([b]) == [QuoteSegment(b)];
    assert QuoteSegments([a, b]) == [QuoteSegment(a)] + [QuoteSegment(b)];
    JoinCons(QuoteSegment(a), [QuoteSegment(b)], '.');
  }

  // ----- quoting twice -----

  /** Parts that a second quoting leaves alone: no backquote inside, or quoted as a whole. */
  predicate Stable(segment: string) {
    TICK !in Trim(segment) || AlreadyQuoted(Trim(segment))
  }

  ghost predicate AllStable(parts: seq<string>) {
    forall p :: p in parts ==> Stable(p)
  }

  lemma {:induction false} CountEscape(s: string)
    ensures Count(Escape(s), TICK) == 2 * Count(s, TICK)
  {
    if s != "" {
      CountEscape(s[1..]);
      CountConcat(if s[0] == TICK then [TICK, TICK] else [s[0]], Escape(s[1..]), TICK);
      assert [TICK, TICK][1..] == [TICK];
    }
  }

  lemma CountQuote(s: string)
    ensures Count(Quote(s), TICK) == 2 + 2 * Count(s, TICK)
    ensures AlreadyQuoted(Quote(s)) <==> TICK !in s
    ensures Trim(Quote(s)) == Quote(s) && |Quote(Quote(s))| > |Quote(s)|
  {
    CountEscape(s);
    CountConcat("`" + Escape(s), "`", TICK);
    CountConcat("`", Escape(s), TICK);
    CountZero(s, TICK);
  }

  lemma {:induction false} EscapeMembers(s: string, x: char)
    ensures x in Escape(s) <==> x in s
  {
    if s != "" {
      EscapeMembers(s[1..], x);
      assert s == [s[0]] + s[1..];
    }
  }

  lemma SegmentMembers(segment: string, x: char)
    requires x in QuoteSegment(segment)
    ensures x in segment || x == TICK
  {
    TrimMembers(segment, x);
    EscapeMembers(Trim(segment), x);
  }

  lemma SegmentTwice(segment: string)
    ensures QuoteSegment(QuoteSegment(segment)) == QuoteSegment(segment) <==> Stable(segment)
    ensures !Stable(segment) ==> Count(QuoteSegment(segment), TICK) > 2
    ensures Trim(QuoteSegment(segment)) == QuoteSegment(segment)
  {
    var s := Trim(segment);
    TrimTrimmed(segment);
    CountQuote(s);
    CountZero(s, TICK);
  }

  lemma {:induction false} CountJoin(parts: seq<string>, sep: char, c: char, i: nat)
    requires i < |parts|
    ensures Count(parts[i], c) <= Count(Join(parts, sep), c)
    decreases |parts|
  {
    if |parts| > 1 {
      var rest := Join(parts[1..], sep);
      CountConcat(parts[0] + [sep], rest, c);
      CountConcat(parts[0], [sep], c);
      if i > 0 {
        CountJoin(parts[1..], sep, c, i - 1);
      }
    }
  }

  /** A part as the output has it: without dots, and without spaces around it. */
  predicate Clean(p: string) {
    '.' !in p && (p == "" || (!IsSpace(p[0]) && !IsSpace(p[|p| - 1])))
  }

  lemma {:induction false} JoinEnds(parts: seq<string>, c: char)
    requires |parts| > 1 && !IsSpace(c) && forall p :: p in parts ==> Clean(p)
    ensures var s := Join(parts, c); s != "" && !IsSpace(s[0]) && !IsSpace(s[|s| - 1])
    decreases |parts|
  {
    assert parts[0] in parts;
    var rest := Join(parts[1..], c);
    if |parts| == 2 {
      assert parts[1] in parts;
    } else {
      JoinEnds(parts[1..], c);
    }
  }

  lemma SegmentIsClean(segment: string)
    requires '.' !in segment
    ensures Clean(QuoteSegment(segment))
  {
    if '.' in QuoteSegment(segment) {
      SegmentMembers(segment, '.');
    }
  }

  lemma {:induction false} QuotedParts(parts: seq<string>)
    requires Lacks(parts, '.')
    ensures forall p :: p in QuoteSegments(parts) ==> Clean(p)
    ensures Lacks(QuoteSegments(parts), '.')
    decreases |parts|
  {
    if parts != [] {
      SegmentIsClean(parts[0]);
      QuotedParts(parts[1..]);
    }
  }

  lemma {:induction false} SegmentsTwice(parts: seq<string>)
    ensures QuoteSegments(QuoteSegments(parts)) == QuoteSegments(parts) <==> AllStable(parts)
    decreases |parts|
  {
    if parts != [] {
      SegmentTwice(parts[0]);
      SegmentsTwice(parts[1..]);
      var quoted := QuoteSegments(parts);
      assert quoted[1..] == QuoteSegments(parts[1..]);
      assert QuoteSegments(quoted)[1..] == QuoteSegments(quoted[1..]);
      assert forall p :: p in parts <==> p == parts[0] || p in parts[1..];
    }
  }

  lemma WholeQuotedIsStable(parts: seq<string>)
    requires AlreadyQuoted(Join(QuoteSegments(parts), '.'))
    ensures AllStable(parts)
  {
    forall p | p in parts ensures Stable(p) {
      var i :| 0 <= i < |parts| && parts[i] == p;
      SegmentTwice(p);
      QuoteSegmentsAt(parts, i);
      CountJoin(QuoteSegments(parts), '.', TICK, i);
    }
  }

  lemma QuoteDotted(q: string)
    requires '.' in q && Trim(q) == q && !AlreadyQuoted(q)
    ensures QuoteIdent(q) == Join(QuoteSegments(Split(q, '.')), '.')
  {}

  lemma RequoteDotted(quoted: seq<string>)
    requires |quoted| > 1 && (forall p :: p in quoted ==> Clean(p)) && Lacks(quoted, '.')
    requires !AlreadyQuoted(Join(quoted, '.'))
    ensures QuoteIdent(Join(quoted, '.')) == Join(QuoteSegments(quoted), '.')
  {
    JoinEnds(quoted, '.');
    JoinMembers(quoted, '.', '.');
    QuoteDotted(Join(quoted, '.'));
    SplitJoin(quoted, '.');
  }

  /** Quoting a dotted name twice quotes each of its parts twice. */
  lemma DottedTwice(parts: seq<string>)
    requires |parts| > 1 && Lacks(parts, '.')
    ensures var q := Join(QuoteSegments(parts), '.');
            QuoteIdent(q) == q <==> AllStable(parts)
  {
    var quoted := QuoteSegments(parts);
    QuotedParts(parts);
    if AlreadyQuoted(Join(quoted, '.')) {
      WholeQuotedIsStable(parts);
      JoinEnds(quoted, '.');
    } else {
      RequoteDotted(quoted);
      QuotedParts(quoted);
      JoinInjective(QuoteSegments(quoted), quoted, '.');
      SegmentsTwice(parts);
    }
  }

  /** A name without dots, quoted twice. */
  lemma UndottedTwice(s: string)
    requires Trim(s) == s && '.' !in s
    ensures QuoteIdent(QuoteIdent(s)) == QuoteIdent(s) <==> Stable(s)
  {
    SegmentTwice(s);
    assert QuoteIdent(s) == QuoteSegment(s);
    if s != "" && s != "*" && !AlreadyQuoted(s) {
      CountQuote(s);
      EscapeMembers(s, '.');
      assert '.' !in Quote(s);
      assert QuoteIdent(Quote(s)) == QuoteSegment(Quote(s));
    }
  }

  /**
   Quoting is idempotent exactly on names that are quoted as a whole or whose parts each have
   no backquote inside or are already quoted; so on every backquote-free name.
   */
  lemma QuoteTwiceIff(name: string)
    ensures QuoteIdent(QuoteIdent(name)) == QuoteIdent(name) <==>
            AlreadyQuoted(Trim(name)) || AllStable(Split(Trim(name), '.'))
  {
    var s := Trim(name);
    TrimTrimmed(name);
    assert QuoteIdent(name) == QuoteIdent(s);
    if AlreadyQuoted(s) {
      assert QuoteIdent(s) == s;
    } else if '.' in s {
      SplitHasDot(s, '.');
      SplitLacks(s, '.');
      DottedTwice(Split(s, '.'));
      QuoteDotted(s);
    } else {
      SplitSingle(s, '.');
      UndottedTwice(s);
      assert s in [s];
    }
  }

  lemma SplitHasDot(s: string, c: char)
    requires c in s
    ensures |Split(s, c)| > 1
  {
    assert s[..|s|] == s;
  }

  // ----- quoteOrderBy -----

  function WordLength(s: string): (n: nat)
    ensures n <= |s| && SpaceFree(s[..n]) && (n < |s| ==> IsSpace(s[n]))
    ensures s != "" && !IsSpace(s[0]) ==> n > 0
  {
    if s == "" || IsSpace(s[0]) then 0 else
    var n := WordLength(s[1..]) + 1;
    assert s[..n] == [s[0]] + s[1..][..n - 1];
    n
  }

  /** strings.Fields */
  function Fields(s: string): seq<string>
    decreases |s|
  {
    var t := TrimLeft(s);
    if t == "" then [] else
    var n := WordLength(t);
    [t[..n]] + Fields(t[n..])
  }

  // A term of an ORDER BY list: a column and what follows it, such as a direction.
  datatype Term = Term(column: string, rest: seq<string>)

  function TermFields(t: Term): seq<string> {
    [t.column] + t.rest
  }

  function TermFrom(fields: seq<string>): seq<Term> {
    if fields == [] then [] else [Term(fields[0], fields[1..])]
  }

  function TermOf(chunk: string): seq<Term> {
    TermFrom(Fields(chunk))
  }

  /** The terms of an ORDER BY expression: comma-separated, blank ones skipped. */
  function TermsOf(chunks: seq<string>): seq<Term> {
    if chunks == [] then [] else TermOf(chunks[0]) + TermsOf(chunks[1..])
  }

  function OrderTerms(expr: string): seq<Term> {
    TermsOf(Split(Trim(expr), ','))
  }

  function QuoteTerms(terms: seq<Term>): seq<Term> {
    if terms == [] then [] else [terms[0].(column := QuoteIdent(terms[0].column))] + QuoteTerms(terms[1..])
  }

  /** strings.Join(out, ", ") of the rendered terms */
  function Render(terms: seq<Term>): string {
    if terms == [] then ""
    else if |terms| == 1 then Join(TermFields(terms[0]), ' ')
    else Join(TermFields(terms[0]), ' ') + ", " + Render(terms[1..])
  }

  function QuoteOrderBy(expr: string): string {
    Render(QuoteTerms(OrderTerms(expr)))
  }

  // ----- the rendered list reads back term by term -----

  /** A field as Fields yields it and quoting keeps it. */
  predicate Word(s: string) {
    s != "" && SpaceFree(s) && ',' !in s
  }

  ghost predicate Words(fields: seq<string>) {
    fields != [] && forall w :: w in fields ==> Word(w)
  }

  ghost predicate WordTerms(terms: seq<Term>) {
    forall t :: t in terms ==> Words(TermFields(t))
  }

  lemma {:induction false} FieldsAreWords(s: string)
    requires ',' !in s
    ensures forall w :: w in Fields(s) ==> Word(w)
    decreases |s|
  {
    var t := TrimLeft(s);
    if t != "" {
      var n := WordLength(t);
      forall x | x in t ensures x in s { TrimLeftMembers(s, x); }
      assert forall x :: x in t[..n] ==> x in t;
      assert forall x :: x in t[n..] ==> x in t;
      FieldsAreWords(t[n..]);
    }
  }

  lemma {:induction false} TermsAreWords(chunks: seq<string>)
    requires Lacks(chunks, ',')
    ensures WordTerms(TermsOf(chunks))
  {
    if chunks != [] {
      FieldsAreWords(chunks[0]);
      TermsAreWords(chunks[1..]);
      var f := Fields(chunks[0]);
      assert f != [] ==> TermFields(Term(f[0], f[1..])) == f;
    }
  }

  lemma WordLengthWord(w: string, rest: string)
    requires SpaceFree(w) && (rest == "" || IsSpace(rest[0]))
    ensures WordLength(w + rest) == |w|
  {
    var s := w + rest;
    assert s[..|w|] == w && s[|w|..] == rest;
  }

  lemma {:induction false} FieldsOfJoined(term: seq<string>)
    requires Words(term)
    ensures Fields(Join(term, ' ')) == term
    decreases |term|
  {
    assert Word(term[0]);
    var s := Join(term, ' ');
    if |term| == 1 {
      WordLengthWord(term[0], "");
      assert term[0] + "" == term[0];
      assert s[..|s|] == s && s[|s|..] == "";
      assert Fields("") == [];
    } else {
      var rest := Join(term[1..], ' ');
      assert s == term[0] + ([' '] + rest);
      WordLengthWord(term[0], [' '] + rest);
      assert s[..|term[0]|] == term[0] && s[|term[0]|..] == [' '] + rest;
      FieldsOfJoined(term[1..]);
      FieldsSkipSpace(rest);
    }
  }

  lemma FieldsSkipSpace(s: string)
    ensures Fields([' '] + s) == Fields(s)
  {
    assert ([' '] + s)[1..] == s;
  }

  lemma {:induction false} JoinedLacksComma(term: seq<string>)
    requires Words(term)
    ensures ',' !in Join(term, ' ') && Join(term, ' ') != "" && !IsSpace(Join(term, ' ')[0])
    ensures !IsSpace(Join(term, ' ')[|Join(term, ' ')| - 1])
    decreases |term|
  {
    assert Word(term[0]);
    if |term| > 1 {
      JoinedLacksComma(term[1..]);
    }
  }

  /** One rendered term, with or without the space that follows a comma. */
  lemma RenderedTerm(t: Term, lead: string)
    requires Words(TermFields(t)) && (lead == "" || lead == " ")
    ensures TermOf(lead + Join(TermFields(t), ' ')) == [t] && ',' !in lead + Join(TermFields(t), ' ')
  {
    var s := Join(TermFields(t), ' ');
    JoinedLacksComma(TermFields(t));
    FieldsOfJoined(TermFields(t));
    FieldsSkipSpace(s);
    assert lead == "" ==> lead + s == s;
  }

  lemma CommaGroups(lead: string, first: string, rest: string)
    ensures lead + (first + ", " + rest) == (lead + first) + [','] + (" " + rest)
  {
    assert ", " == [','] + " ";
  }

  lemma RenderCons(terms: seq<Term>, lead: string)
    requires |terms| > 1
    ensures lead + Render(terms) == (lead + Join(TermFields(terms[0]), ' ')) + [','] + (" " + Render(terms[1..]))
  {
    CommaGroups(lead, Join(TermFields(terms[0]), ' '), Render(terms[1..]));
  }

  lemma ReadFirstTerm(t: Term, lead: string, rest: string)
    requires Words(TermFields(t)) && (lead == "" || lead == " ")
    ensures TermsOf(Split((lead + Join(TermFields(t), ' ')) + [','] + rest, ',')) == [t] + TermsOf(Split(rest, ','))
  {
    var first := lead + Join(TermFields(t), ' ');
    RenderedTerm(t, lead);
    SplitFirst(first, ',', rest);
    TermsOfCons(first, Split(rest, ','));
  }

  lemma ReadOnlyTerm(t: Term, lead: string)
    requires Words(TermFields(t)) && (lead == "" || lead == " ")
    ensures TermsOf(Split(lead + Join(TermFields(t), ' '), ',')) == [t]
  {
    var first := lead + Join(TermFields(t), ' ');
    RenderedTerm(t, lead);
    SplitSingle(first, ',');
    TermsOfCons(first, []);
  }

  lemma {:induction false} RenderedTerms(terms: seq<Term>, lead: string)
    requires terms != [] && WordTerms(terms) && (lead == "" || lead == " ")
    ensures TermsOf(Split(lead + Render(terms), ',')) == terms
    decreases |terms|
  {
    assert terms[0] in terms;
    if |terms| == 1 {
      ReadOnlyTerm(terms[0], lead);
      assert terms == [terms[0]];
    } else {
      RenderCons(terms, lead);
      ReadFirstTerm(terms[0], lead, " " + Render(terms[1..]));
      RenderedTerms(terms[1..], " ");
    }
  }

  lemma SplitFirst(head: string, c: char, tail: string)
    requires c !in head
    ensures Split(head + [c] + tail, c) == [head] + Split(tail, c)
  {
    IndexOfFirst(head, c, tail);
    var s := head + [c] + tail;
    assert s[..|head|] == head && s[|head| + 1..] == tail;
  }

  lemma TermsOfCons(chunk: string, chunks: seq<string>)
    ensures TermsOf([chunk] + chunks) == TermOf(chunk) + TermsOf(chunks)
  {
    assert ([chunk] + chunks)[1..] == chunks;
  }

  lemma {:induction false} JoinNonEmpty(parts: seq<string>, c: char)
    requires |parts| > 1
    ensures Join(parts, c) != ""
  {}

  lemma QuotedMember(w: string, parts: seq<string>, x: char)
    requires parts == Split(w, '.') && exists p :: p in QuoteSegments(parts) && x in p
    ensures x in w || x == TICK
  {
    var p :| p in QuoteSegments(parts) && x in p;
    var i :| 0 <= i < |parts| && QuoteSegments(parts)[i] == p;
    QuoteSegmentsAt(parts, i);
    SegmentMembers(parts[i], x);
    if x in parts[i] {
      SplitMembers(w, '.', i, x);
    }
  }

  /** Quoting a field gives a field. */
  lemma QuotedWord(w: string)
    requires Word(w)
    ensures Word(QuoteIdent(w))
  {
    TrimTrimmed(w);
    assert Trim(w) == w;
    if AlreadyQuoted(w) || w == "*" {
    } else if '.' in w {
      var parts := Split(w, '.');
      SplitHasDot(w, '.');
      JoinNonEmpty(QuoteSegments(parts), '.');
      forall x | x in QuoteIdent(w) ensures x in w || x == TICK || x == '.' {
        JoinMembers(QuoteSegments(parts), '.', x);
        if x != '.' {
          QuotedMember(w, parts, x);
        }
      }
      WordFromMembers(w, QuoteIdent(w));
    } else {
      forall x | x in Quote(w) ensures x in w || x == TICK || x == '.' {
        EscapeMembers(w, x);
      }
      WordFromMembers(w, Quote(w));
    }
  }

  lemma WordFromMembers(w: string, q: string)
    requires Word(w) && q != "" && forall x :: x in q ==> x in w || x == TICK || x == '.'
    ensures Word(q)
  {
    forall i | 0 <= i < |q| ensures !IsSpace(q[i]) {
      assert q[i] in q;
    }
  }

  lemma {:induction false} SplitMembers(s: string, c: char, i: nat, x: char)
    requires i < |Split(s, c)| && x in Split(s, c)[i]
    ensures x in s
    decreases |s|
  {
    var n := Index(s, c);
    if n < |s| && i > 0 {
      SplitMembers(s[n + 1..], c, i - 1, x);
    }
  }

  lemma {:induction false} QuotedTermsAreWords(terms: seq<Term>)
    requires WordTerms(terms)
    ensures WordTerms(QuoteTerms(terms))
  {
    if terms != [] {
      var t := terms[0];
      assert Words(TermFields(t)) && Word(TermFields(t)[0]);
      QuotedWord(t.column);
      var q := t.(column := QuoteIdent(t.column));
      assert Words(TermFields(q)) by {
        forall w | w in TermFields(q) ensures Word(w) {
          assert w == q.column || w in TermFields(t);
        }
      }
      QuotedTermsAreWords(terms[1..]);
    }
  }

  lemma {:induction false} RenderIsTrimmed(terms: seq<Term>)
    requires terms != [] && WordTerms(terms)
    ensures Render(terms) != "" && Trim(Render(terms)) == Render(terms)
    decreases |terms|
  {
    assert terms[0] in terms;
    JoinedLacksComma(TermFields(terms[0]));
    if |terms| > 1 {
      RenderIsTrimmed(terms[1..]);
    }
  }

  /** The quoted expression has the same terms in the same order, each with only its column quoted. */
  lemma OrderByKeepsTerms(expr: string)
    ensures OrderTerms(QuoteOrderBy(expr)) == QuoteTerms(OrderTerms(expr))
  {
    SplitLacks(Trim(expr), ',');
    TermsAreWords(Split(Trim(expr), ','));
    var terms := QuoteTerms(OrderTerms(expr));
    QuotedTermsAreWords(OrderTerms(expr));
    if terms == [] {
      SplitSingle("", ',');
      assert Fields("") == [];
      TermsOfCons("", []);
      assert [""] + [] == [""];
    } else {
      RenderIsTrimmed(terms);
      RenderedTerms(terms, "");
      assert "" + Render(terms) == Render(terms);
    }
  }

  /** Term by term: the column reads back as the identifiers it stands for, and what follows it is as it was. */
  lemma OrderByReadsBack(expr: string, i: nat)
    ensures |OrderTerms(QuoteOrderBy(expr))| == |OrderTerms(expr)|
    ensures i < |OrderTerms(expr)| ==>
              var (term, quoted) := (OrderTerms(expr)[i], OrderTerms(QuoteOrderBy(expr))[i]);
              Lex(quoted.column) == Some(IdentsOf(term.column)) && quoted.rest == term.rest
  {
    OrderByKeepsTerms(expr);
    QuoteTermsAt(OrderTerms(expr), i);
    if i < |OrderTerms(expr)| {
      QuoteRoundTrip(OrderTerms(expr)[i].column);
    }
  }

  lemma {:induction false} QuoteTermsAt(terms: seq<Term>, i: nat)
    ensures |QuoteTerms(terms)| == |terms|
    ensures i < |terms| ==> QuoteTerms(terms)[i] == Term(QuoteIdent(terms[i].column), terms[i].rest)
  {
    if terms != [] {
      QuoteTermsAt(terms[1..], if i > 0 then i - 1 else 0);
    }
  }

  /** quoteOrderBy as it runs. */
  method QuoteOrderByLoop(expr: string) returns (r: string)
    ensures r == QuoteOrderBy(expr)
  {
    var out := QuoteChunks(Split(Trim(expr), ','));
    QuotedByQuoteIdent(OrderTerms(expr));
    r := Render(out);
  }

  /** Its loop: blank chunks are skipped, of the others the first field is quoted. */
  method QuoteChunks(chunks: seq<string>) returns (out: seq<Term>)
    ensures out == QuotedBy(QuoteIdent, TermsOf(chunks))
  {
    out := [];
    for i := 0 to |chunks|
      invariant out == QuotedBy(QuoteIdent, Flat(TermOf, chunks[..i]))
    {
      var fields := Fields(chunks[i]);
      FlatNext(QuoteIdent, TermOf, chunks, i);
      QuotedTerm(QuoteIdent, fields);
      if |fields| == 0 {
        continue;
      }
      fields := fields[0 := QuoteIdent(fields[0])];
      out := out + [Term(fields[0], fields[1..])];
    }
    assert chunks[..|chunks|] == chunks;
    FlatTerms(chunks);
  }

  // The proof of the loop does not depend on how a chunk is read and a column quoted, so it takes both as parameters.

  function QuotedBy(quote: string -> string, terms: seq<Term>): seq<Term> {
    if terms == [] then [] else [terms[0].(column := quote(terms[0].column))] + QuotedBy(quote, terms[1..])
  }

  function Flat(read: string -> seq<Term>, chunks: seq<string>): seq<Term> {
    if chunks == [] then [] else read(chunks[0]) + Flat(read, chunks[1..])
  }

  lemma {:induction false} FlatSnoc(read: string -> seq<Term>, chunks: seq<string>, chunk: string)
    ensures Flat(read, chunks + [chunk]) == Flat(read, chunks) + read(chunk)
  {
    if chunks == [] {
      assert ([] + [chunk])[1..] == [];
    } else {
      FlatSnoc(read, chunks[1..], chunk);
      assert (chunks + [chunk])[1..] == chunks[1..] + [chunk];
    }
  }

  lemma {:induction false} QuotedByConcat(quote: string -> string, a: seq<Term>, b: seq<Term>)
    ensures QuotedBy(quote, a + b) == QuotedBy(quote, a) + QuotedBy(quote, b)
  {
    if a == [] {
      assert a + b == b;
    } else {
      QuotedByConcat(quote, a[1..], b);
      assert (a + b)[1..] == a[1..] + b;
    }
  }

  lemma FlatNext(quote: string -> string, read: string -> seq<Term>, chunks: seq<string>, i: nat)
    requires i < |chunks|
    ensures QuotedBy(quote, Flat(read, chunks[..i + 1])) == QuotedBy(quote, Flat(read, chunks[..i])) + QuotedBy(quote, read(chunks[i]))
  {
    assert chunks[..i + 1] == chunks[..i] + [chunks[i]];
    FlatSnoc(read, chunks[..i], chunks[i]);
    QuotedByConcat(quote, Flat(read, chunks[..i]), read(chunks[i]));
  }

  lemma QuotedTerm(quote: string -> string, fields: seq<string>)
    ensures QuotedBy(quote, TermFrom(fields)) == if fields == [] then [] else [Term(quote(fields[0]), fields[1..])]
  {
  }

  lemma {:induction false} FlatTerms(chunks: seq<string>)
    ensures Flat(TermOf, chunks) == TermsOf(chunks)
  {
    if chunks != [] {
      FlatTerms(chunks[1..]);
    }
  }

  lemma {:induction false} QuotedByQuoteIdent(terms: seq<Term>)
    ensures QuotedBy(QuoteIdent, terms) == QuoteTerms(terms)
  {
    if terms != [] {
      QuotedByQuoteIdent(terms[1..]);
    }
  }
}
