/**
 What is logged of a JSON body (captureJSONBody, internal/platform/middleware/logger.go:208-228,
 with exceedsBudget and truncateBytes, 309-325): the redacted tree when its encoding is within the
 byte limit, and otherwise the cut encoding, so that field names are bounded too.
 */
module BodyCapture {
  import opened Wrappers
  import opened Redaction
  import Identifiers

  // json.Unmarshal and json.Marshal; None is their error.
  datatype Codec = Codec(parse: string -> Option<Json>, marshal: Json -> Option<string>)

  datatype Logged = Nothing | Text(s: string) | Tree(v: Json)

  /** Every field name and every string value in the tree is at most n long. */
  ghost predicate Fits(v: Json, n: nat)
    decreases v
  {
    match v
    case Obj(fields) => forall i :: 0 <= i < |fields| ==> |fields[i].key| <= n && Fits(fields[i].value, n)
    case Arr(items) => forall i :: 0 <= i < |items| ==> Fits(items[i], n)
    case Str(s) => |s| <= n
    case _ => true
  }

  /** The empty text is no JSON, decoded objects have no key twice, and an encoding contains every key and string. */
  ghost predicate Lawful(lib: Codec) {
    && lib.parse("").None?
    && (forall s :: lib.parse(s).Some? ==> MapLike(lib.parse(s).value))
    && (forall v :: lib.marshal(v).Some? ==> Fits(v, |lib.marshal(v).value|))
  }

  /** What comes from the parser can be encoded, redacted or not: there are no values in it that JSON does not have. */
  ghost predicate Encodes(c: Config, lib: Codec) {
    forall s :: lib.parse(s).Some? ==> lib.marshal(Redact(c, lib.parse(s).value, 0)).Some?
  }

  function Capture(c: Config, lib: Codec, body: string): Logged {
    var b := Identifiers.Trim(body);
    if b == "" then Nothing else
    match lib.parse(b)
    case None => Text(Truncate(c, b))
    case Some(data) =>
      var redacted := Redact(c, data, 0);
      match lib.marshal(redacted)
      case None => Text(Truncate(c, b))
      case Some(raw) => if |raw| > c.maxBytes then Text(Truncate(c, raw)) else Tree(redacted)
  }

  ghost predicate WithinLimit(c: Config, r: Logged) {
    match r
    case Nothing => true
    case Text(s) => |s| <= c.maxBytes + |SUFFIX|
    case Tree(v) => Fits(v, c.maxBytes) && Bounded(c, v, MAX_DEPTH + 1)
  }

  /**
   For every body: every emitted string and field name is bounded, and so are depth and fan-out;
   nothing is emitted exactly for a body of white space.
   */
  lemma CaptureIsBounded(c: Config, lib: Codec, body: string)
    requires Lawful(lib)
    ensures WithinLimit(c, Capture(c, lib, body))
    ensures Capture(c, lib, body).Nothing? <==> Identifiers.Blank(body)
  {
    var lead, trail := Identifiers.TrimStrips(body);
    if Identifiers.Trim(body) != "" {
      assert body[|lead|] == Identifiers.Trim(body)[0];
    }
    var b := Identifiers.Trim(body);
    if lib.parse(b).Some? {
      var redacted := Redact(c, lib.parse(b).value, 0);
      OutputIsBounded(c, lib.parse(b).value, 0);
      if lib.marshal(redacted).Some? {
        FitsMore(redacted, |lib.marshal(redacted).value|, c.maxBytes);
      }
    }
  }

  lemma {:induction false} FitsMore(v: Json, n: nat, m: nat)
    requires Fits(v, n)
    ensures n <= m ==> Fits(v, m)
    decreases v
  {
    match v
    case Obj(fields) =>
      forall i | 0 <= i < |fields| && n <= m ensures Fits(fields[i].value, m) {
        FitsMore(fields[i].value, n, m);
      }
    case Arr(items) =>
      forall i | 0 <= i < |items| && n <= m ensures Fits(items[i], m) {
        FitsMore(items[i], n, m);
      }
    case _ =>
  }

  /** A body with nothing to hide or to cut is logged as its tree. */
  lemma HarmlessIsCaptured(c: Config, lib: Codec, body: string, v: Json)
    requires Lawful(lib) && lib.parse(Identifiers.Trim(body)) == Some(v) && Harmless(c, v, 0)
    requires lib.marshal(v).Some? && |lib.marshal(v).value| <= c.maxBytes
    ensures Capture(c, lib, body) == Tree(v)
  {
    HarmlessIsKept(c, v, 0);
  }

  /**
   A body that parses is logged as a tree exactly when the encoding of the redacted tree fits, and
   everything in the open is in it at its place; otherwise the encoding is logged up to the limit.
   */
  lemma OpenIsCaptured(c: Config, lib: Codec, body: string, v: Json, path: Path)
    requires Lawful(lib) && Encodes(c, lib) && lib.parse(Identifiers.Trim(body)) == Some(v)
    requires InTheOpen(c, v, path) && |path| <= MAX_DEPTH
    ensures var r, raw := Capture(c, lib, body), lib.marshal(Redact(c, v, 0)).value;
            if |raw| > c.maxBytes then r == Text(raw[..c.maxBytes] + SUFFIX)
            else
              && r.Tree? && At(v, path).Some? && At(r.v, path).Some?
              && LoggedAs(c, At(v, path).value, At(r.v, path).value)
  {
    OpenIsLogged(c, v, path, 0);
  }

  /** Bodies that parse to trees differing only under sensitive keys are logged alike, cut or not. */
  lemma CaptureHides(c: Config, lib: Codec, a: string, b: string)
    requires Lawful(lib) && Encodes(c, lib)
    requires lib.parse(Identifiers.Trim(a)).Some? && lib.parse(Identifiers.Trim(b)).Some?
    requires SameOutsideSecrets(c, lib.parse(Identifiers.Trim(a)).value, lib.parse(Identifiers.Trim(b)).value)
    ensures Capture(c, lib, a) == Capture(c, lib, b)
  {
    NonInterference(c, lib.parse(Identifiers.Trim(a)).value, lib.parse(Identifiers.Trim(b)).value, 0);
  }

  /**
   Nothing of a body that does not parse is redacted: two of them are logged alike if and only if
   they are the same, or both are over the limit with the same first maxBytes bytes.
   */
  lemma UnparsedIsVerbatim(c: Config, lib: Codec, a: string, b: string)
    requires lib.parse(Identifiers.Trim(a)).None? && lib.parse(Identifiers.Trim(b)).None?
    requires Identifiers.Trim(a) != "" && Identifiers.Trim(b) != ""
    ensures |Identifiers.Trim(a)| <= c.maxBytes ==> Capture(c, lib, a) == Text(Identifiers.Trim(a))
    ensures Capture(c, lib, a) == Capture(c, lib, b) <==>
            var x, y := Identifiers.Trim(a), Identifiers.Trim(b);
            x == y || (|x| > c.maxBytes && |y| > c.maxBytes && x[..c.maxBytes] == y[..c.maxBytes])
  {
    TruncateAlikeIff(c, Identifiers.Trim(a), Identifiers.Trim(b));
  }

  lemma TruncateAlikeIff(c: Config, x: string, y: string)
    ensures Truncate(c, x) == Truncate(c, y) <==>
            x == y || (|x| > c.maxBytes && |y| > c.maxBytes && x[..c.maxBytes] == y[..c.maxBytes])
  {
    var n := c.maxBytes;
    if |x| > n && |y| > n && x[..n] + SUFFIX == y[..n] + SUFFIX {
      assert (x[..n] + SUFFIX)[..n] == x[..n] && (y[..n] + SUFFIX)[..n] == y[..n];
    }
  }

  /** captureJSONBody as it runs: the encoder is called for the budget and again for the text. */
  method CaptureJsonBody(c: Config, lib: Codec, body: string) returns (r: Logged)
    requires Lawful(lib)
    ensures r == Capture(c, lib, body)
  {
    var b := Identifiers.Trim(body);
    if b == "" {
      return Nothing;
    }
    var data := lib.parse(b);
    if data.None? {
      return Text(Truncate(c, b));
    }
    var redacted := RedactValue(c, data.value, 0);
    var over := ExceedsBudget(c, lib, redacted);
    if over {
      var raw := lib.marshal(redacted);
      if raw.None? {
        return Text(Truncate(c, b));
      }
      return Text(Truncate(c, raw.value));
    }
    r := Tree(redacted);
  }

  method ExceedsBudget(c: Config, lib: Codec, v: Json) returns (over: bool)
    ensures !over <==> lib.marshal(v).Some? && |lib.marshal(v).value| <= c.maxBytes
  {
    var raw := lib.marshal(v);
    if raw.None? {
      return true;
    }
    over := |raw.value| > c.maxBytes;
  }
}
