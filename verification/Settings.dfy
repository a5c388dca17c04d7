/**
 The settings table (internal/modules/systemsetting/service/system_setting_service.go) with the
 repository's update of non-zero fields only (pkg/repository/repository.go:46-60).
 */
module Settings {
  import opened Wrappers

  const TYPE_TEXT: nat := 1
  const TYPE_NUMBER: nat := 2
  const TYPE_BOOL: nat := 3
  const TYPE_JSON: nat := 4

  const CORE_KEYS: set<string> := {"system.name", "system.version", "database.version", "security.jwt_secret"}

  datatype Setting = Setting(category: string, key: string, value: string, kind: nat, description: string, createBy: nat)

  datatype Table = Table(rows: map<nat, Setting>, nextId: nat)

  /** The parsers of number and JSON values, and the column's collation as a normal form of keys. */
  datatype Rules = Rules(isNumber: string -> bool, isJson: string -> bool, fold: string -> string)

  /** Neither strconv.ParseFloat nor json.Unmarshal takes the empty string. */
  ghost predicate Lawful(g: Rules) {
    !g.isNumber("") && !g.isJson("")
  }

  /** strconv.ParseBool */
  predicate IsBool(s: string) {
    s in {"1", "t", "T", "TRUE", "true", "True", "0", "f", "F", "FALSE", "false", "False"}
  }

  predicate ValidateValue(g: Rules, kind: nat, value: string) {
    if kind == TYPE_TEXT then true
    else if kind == TYPE_NUMBER then g.isNumber(value)
    else if kind == TYPE_BOOL then IsBool(value)
    else if kind == TYPE_JSON then g.isJson(value)
    else false
  }

  datatype Failure = DuplicateKey | InvalidValue | NotFound | CoreKey | DbFailure

  /** Some row other than excluded has the key; the zero id excludes nothing. */
  predicate KeyTaken(g: Rules, t: Table, key: string, excluded: nat) {
    exists id :: id in t.rows && g.fold(t.rows[id].key) == g.fold(key) && !(excluded > 0 && id == excluded)
  }

  datatype CreateRequest = CreateRequest(category: string, key: string, value: string, kind: nat, description: string)

  datatype UpdateRequest = UpdateRequest(id: nat, category: string, key: string, value: string, kind: nat, description: string)

  /** copier.Copy: every field, the zero ones included. */
  function Copied(row: Setting, req: UpdateRequest): Setting {
    Setting(req.category, req.key, req.value, req.kind, req.description, row.createBy)
  }

  function NonEmpty(s: string, otherwise: string): string {
    if s == "" then otherwise else s
  }

  /** What the UPDATE statement leaves: zero fields of the model are not in its SET list. */
  function Stored(row: Setting, model: Setting): Setting {
    Setting(NonEmpty(model.category, row.category), NonEmpty(model.key, row.key), NonEmpty(model.value, row.value),
            if model.kind == 0 then row.kind else model.kind, NonEmpty(model.description, row.description),
            if model.createBy == 0 then row.createBy else model.createBy)
  }

  function CreateFailure(g: Rules, t: Table, req: CreateRequest): Option<Failure> {
    if KeyTaken(g, t, req.key, 0) then Some(DuplicateKey)
    else if !ValidateValue(g, req.kind, req.value) then Some(InvalidValue)
    else None
  }

  function UpdateFailure(g: Rules, t: Table, req: UpdateRequest): Option<Failure> {
    if req.id !in t.rows then Some(NotFound)
    else if req.key != "" && req.key != t.rows[req.id].key && KeyTaken(g, t, req.key, req.id) then Some(DuplicateKey)
    else if !ValidateValue(g, req.kind, req.value) then Some(InvalidValue)
    else None
  }

  function DeleteFailure(t: Table, id: nat): Option<Failure> {
    if id !in t.rows then Some(NotFound)
    else if t.rows[id].key in CORE_KEYS then Some(CoreKey)
    else None
  }

  datatype Call =
    | Create(req: CreateRequest, createBy: nat)
    | Update(change: UpdateRequest)
    | Delete(id: nat)

  /** One call; stored says whether the database takes the write. */
  function Step(g: Rules, t: Table, c: Call, stored: bool): Table {
    if !stored then t else
    match c
    case Create(req, createBy) =>
      if CreateFailure(g, t, req).Some? then t else
      Table(t.rows[t.nextId := Setting(req.category, req.key, req.value, req.kind, req.description, createBy)], t.nextId + 1)
    case Update(req) =>
      if UpdateFailure(g, t, req).Some? then t else
      var row := t.rows[req.id];
      t.(rows := t.rows[req.id := Stored(row, Copied(row, req))])
    case Delete(id) =>
      if DeleteFailure(t, id).Some? then t else t.(rows := t.rows - {id})
  }

  function Run(g: Rules, t: Table, calls: seq<(Call, bool)>): Table
    decreases |calls|
  {
    if calls == [] then t else Run(g, Step(g, t, calls[0].0, calls[0].1), calls[1..])
  }

  // What is accepted, and what is stored then.

  /** The value suits the type: text is anything, a number and JSON are what parses, a truth value one of its spellings. */
  predicate Suits(g: Rules, kind: nat, value: string) {
    || kind == 1
    || (kind == 2 && g.isNumber(value))
    || (kind == 3 && value in ["1", "t", "T", "true", "TRUE", "True", "0", "f", "F", "false", "FALSE", "False"])
    || (kind == 4 && g.isJson(value))
  }

  ghost predicate IdsBelow(t: Table) {
    t.nextId > 0 && forall id :: id in t.rows ==> 0 < id < t.nextId
  }

  /** A creation is taken exactly when no row has the key and the value suits the type; then it adds one row, the request's. */
  lemma CreateIsStored(g: Rules, t: Table, req: CreateRequest, createBy: nat)
    requires IdsBelow(t)
    ensures CreateFailure(g, t, req) ==
            if exists id :: id in t.rows && g.fold(t.rows[id].key) == g.fold(req.key) then Some(DuplicateKey)
            else if !Suits(g, req.kind, req.value) then Some(InvalidValue)
            else None
    ensures var t' := Step(g, t, Create(req, createBy), true);
            if CreateFailure(g, t, req).Some? then t' == t
            else
              && t.nextId !in t.rows && t'.rows.Keys == t.rows.Keys + {t.nextId} && t'.nextId == t.nextId + 1
              && (forall id :: id in t.rows ==> t'.rows[id] == t.rows[id])
              && var row := t'.rows[t.nextId];
                 && row.key == req.key && row.category == req.category && row.value == req.value
                 && row.kind == req.kind && row.description == req.description && row.createBy == createBy
  {
    SuitsIff(g, req.kind, req.value);
  }

  lemma SuitsIff(g: Rules, kind: nat, value: string)
    ensures ValidateValue(g, kind, value) <==> Suits(g, kind, value)
  {
  }

  /**
   An update is taken exactly when the row is there, no other row has a key that the request
   changes, and the value suits the type; then each field that the request fills is the request's
   and every other one, with the creator and all other rows, is as it was.
   */
  lemma UpdateIsStored(g: Rules, t: Table, req: UpdateRequest)
    requires IdsBelow(t)
    ensures UpdateFailure(g, t, req) ==
            if req.id !in t.rows then Some(NotFound)
            else if req.key != "" && req.key != t.rows[req.id].key
                    && exists id :: id in t.rows && id != req.id && g.fold(t.rows[id].key) == g.fold(req.key) then Some(DuplicateKey)
            else if !Suits(g, req.kind, req.value) then Some(InvalidValue)
            else None
    ensures var t' := Step(g, t, Update(req), true);
            if UpdateFailure(g, t, req).Some? then t' == t
            else
              && t'.rows.Keys == t.rows.Keys && t'.nextId == t.nextId
              && (forall id :: id in t.rows && id != req.id ==> t'.rows[id] == t.rows[id])
              && var (row, now) := (t.rows[req.id], t'.rows[req.id]);
                 && now.key == (if req.key != "" then req.key else row.key)
                 && now.category == (if req.category != "" then req.category else row.category)
                 && now.value == (if req.value != "" then req.value else row.value)
                 && now.description == (if req.description != "" then req.description else row.description)
                 && now.kind == req.kind && now.createBy == row.createBy
  {
    SuitsIff(g, req.kind, req.value);
  }

  // Every stored value fits its type and keys stay unique.

  ghost predicate ValuesFit(g: Rules, t: Table) {
    forall id :: id in t.rows ==> ValidateValue(g, t.rows[id].kind, t.rows[id].value)
  }

  ghost predicate KeysUnique(g: Rules, t: Table) {
    forall a, b :: a in t.rows && b in t.rows && g.fold(t.rows[a].key) == g.fold(t.rows[b].key) ==> a == b
  }

  ghost predicate Sound(g: Rules, t: Table) {
    ValuesFit(g, t) && KeysUnique(g, t) && IdsBelow(t)
  }

  /** An empty new value leaves the old one in place, but only a text setting may be sent one. */
  lemma StoredFits(g: Rules, row: Setting, req: UpdateRequest)
    requires Lawful(g) && ValidateValue(g, req.kind, req.value)
    ensures ValidateValue(g, Stored(row, Copied(row, req)).kind, Stored(row, Copied(row, req)).value)
  {
  }

  lemma UpdateKeepsSound(g: Rules, t: Table, req: UpdateRequest)
    requires Lawful(g) && Sound(g, t)
    ensures Sound(g, Step(g, t, Update(req), true))
  {
    if UpdateFailure(g, t, req).None? {
      var row := t.rows[req.id];
      StoredFits(g, row, req);
      var t' := Step(g, t, Update(req), true);
      forall id | id in t'.rows && id != req.id ensures g.fold(t'.rows[id].key) != g.fold(t'.rows[req.id].key) {
        assert t'.rows[id] == t.rows[id];
      }
    }
  }

  lemma CreateKeepsSound(g: Rules, t: Table, req: CreateRequest, createBy: nat)
    requires Sound(g, t)
    ensures Sound(g, Step(g, t, Create(req, createBy), true))
  {
    if CreateFailure(g, t, req).None? {
      var t' := Step(g, t, Create(req, createBy), true);
      forall id | id in t'.rows && id != t.nextId ensures g.fold(t'.rows[id].key) != g.fold(req.key) {
        assert t'.rows[id] == t.rows[id];
      }
    }
  }

  /** Over any run, with no help from the database's own constraint. */
  lemma {:induction false} RunKeepsSound(g: Rules, t: Table, calls: seq<(Call, bool)>)
    requires Lawful(g) && Sound(g, t)
    ensures Sound(g, Run(g, t, calls))
    decreases |calls|
  {
    if calls != [] {
      match calls[0].0 {
        case Create(req, createBy) => CreateKeepsSound(g, t, req, createBy);
        case Update(req) => UpdateKeepsSound(g, t, req);
        case Delete(_) =>
      }
      RunKeepsSound(g, Step(g, t, calls[0].0, calls[0].1), calls[1..]);
    }
  }

  /**
   The response shows the copied model. It is what the table holds exactly when every text field
   of the request is non-empty or was empty before.
   */
  lemma ResponseIsStoredIff(g: Rules, t: Table, req: UpdateRequest)
    requires UpdateFailure(g, t, req).None?
    ensures var row := t.rows[req.id];
            Step(g, t, Update(req), true).rows[req.id] == Copied(row, req) <==>
            && (req.category == "" ==> row.category == "") && (req.key == "" ==> row.key == "")
            && (req.value == "" ==> row.value == "") && (req.description == "" ==> row.description == "")
  {
    var row := t.rows[req.id];
    assert req.kind != 0;
    assert Step(g, t, Update(req), true).rows[req.id] == Stored(row, Copied(row, req));
  }

  // Core settings.

  predicate IsCore(t: Table, id: nat) {
    id in t.rows && t.rows[id].key in CORE_KEYS
  }

  /** The call is an Update of the row that gets as far as being stored, and its request names a key. */
  predicate Renames(g: Rules, t: Table, call: (Call, bool), id: nat) {
    && call.1 && call.0.Update? && call.0.change.id == id && call.0.change.key != ""
    && UpdateFailure(g, t, call.0.change).None?
  }

  predicate RenamesAway(g: Rules, t: Table, call: (Call, bool), id: nat) {
    Renames(g, t, call, id) && call.0.change.key !in CORE_KEYS
  }

  predicate RenamesToCore(g: Rules, t: Table, call: (Call, bool), id: nat) {
    Renames(g, t, call, id) && call.0.change.key in CORE_KEYS
  }

  /** One update and one delete: together they remove a core setting if and only if the update is a successful rename to a key that is not core. */
  lemma UpdateThenDeleteIff(g: Rules, t: Table, req: UpdateRequest)
    requires IsCore(t, req.id)
    ensures req.id !in Run(g, t, [(Update(req), true), (Delete(req.id), true)]).rows
            <==> UpdateFailure(g, t, req).None? && req.key != "" && req.key !in CORE_KEYS
  {
    var t' := Step(g, t, Update(req), true);
    RunTwo(g, t, (Update(req), true), (Delete(req.id), true));
    assert t'.rows[req.id].key == if UpdateFailure(g, t, req).None? && req.key != "" then req.key else t.rows[req.id].key;
  }

  lemma RunTwo(g: Rules, t: Table, a: (Call, bool), b: (Call, bool))
    ensures Run(g, t, [a, b]) == Step(g, Step(g, t, a.0, a.1), b.0, b.1)
  {
    var t' := Step(g, t, a.0, a.1);
    assert [a, b][1..] == [b];
    assert Run(g, t', [b]) == Run(g, Step(g, t', b.0, b.1), []);
  }

  lemma {:induction false} RunSnoc(g: Rules, t: Table, calls: seq<(Call, bool)>, c: (Call, bool))
    ensures Run(g, t, calls + [c]) == Step(g, Run(g, t, calls), c.0, c.1)
    decreases |calls|
  {
    if calls == [] {
      assert [] + [c] == [c] && [c][1..] == [];
    } else {
      assert (calls + [c])[1..] == calls[1..] + [c];
      RunSnoc(g, Step(g, t, calls[0].0, calls[0].1), calls[1..], c);
    }
  }

  /** The table before the n-th call. */
  function At(g: Rules, t: Table, calls: seq<(Call, bool)>, n: nat): Table
    requires n <= |calls|
  {
    Run(g, t, calls[..n])
  }

  lemma AtNext(g: Rules, t: Table, calls: seq<(Call, bool)>, n: nat)
    requires n < |calls|
    ensures At(g, t, calls, n + 1) == Step(g, At(g, t, calls, n), calls[n].0, calls[n].1)
  {
    assert calls[..n + 1] == calls[..n] + [calls[n]];
    RunSnoc(g, t, calls[..n], calls[n]);
  }

  /** Call i renames the setting away from the core keys and no call after it and before n renames it back. */
  ghost predicate AwayFrom(g: Rules, t: Table, calls: seq<(Call, bool)>, id: nat, i: nat, n: nat)
    requires i < n <= |calls|
  {
    && RenamesAway(g, At(g, t, calls, i), calls[i], id)
    && forall m :: i < m < n ==> !BackAt(g, t, calls, id, m)
  }

  predicate BackAt(g: Rules, t: Table, calls: seq<(Call, bool)>, id: nat, m: nat)
    requires m < |calls|
  {
    RenamesToCore(g, At(g, t, calls, m), calls[m], id)
  }

  /** The setting is renamed and not renamed back when a delete of it reaches the database. */
  ghost predicate DeletedWhileAway(g: Rules, t: Table, calls: seq<(Call, bool)>, id: nat, i: nat, j: nat)
    requires i < j < |calls|
  {
    calls[j] == (Delete(id), true) && AwayFrom(g, t, calls, id, i, j)
  }

  /** What one call does to the row of a setting. */
  lemma StepOnRow(g: Rules, t: Table, c: (Call, bool), id: nat)
    requires IdsBelow(t) && id < t.nextId
    ensures var t' := Step(g, t, c.0, c.1);
            && IdsBelow(t') && id < t'.nextId
            && (id in t'.rows <==> id in t.rows && !(c == (Delete(id), true) && t.rows[id].key !in CORE_KEYS))
            && (id in t'.rows ==> t'.rows[id].key == if Renames(g, t, c, id) then c.0.change.key else t.rows[id].key)
  {
    var (call, stored) := c;
    match call
    case Create(_, _) =>
    case Update(req) =>
    case Delete(other) =>
  }

  lemma {:induction false} IdsStay(g: Rules, t: Table, calls: seq<(Call, bool)>, id: nat, n: nat)
    requires IdsBelow(t) && id < t.nextId && n <= |calls|
    ensures IdsBelow(At(g, t, calls, n)) && id < At(g, t, calls, n).nextId
    decreases n
  {
    if n > 0 {
      IdsStay(g, t, calls, id, n - 1);
      AtNext(g, t, calls, n - 1);
      StepOnRow(g, At(g, t, calls, n - 1), calls[n - 1], id);
    } else {
      assert calls[..0] == [];
    }
  }

  /** While the row exists it is not core exactly when it is renamed away. */
  lemma {:induction false} NotCoreIsAway(g: Rules, t: Table, calls: seq<(Call, bool)>, id: nat, n: nat)
    requires IdsBelow(t) && IsCore(t, id) && n <= |calls|
    requires id in At(g, t, calls, n).rows && !IsCore(At(g, t, calls, n), id)
    ensures exists i :: 0 <= i < n && AwayFrom(g, t, calls, id, i, n)
    decreases n
  {
    assert calls[..0] == [];
    if n > 0 {
      var before := At(g, t, calls, n - 1);
      IdsStay(g, t, calls, id, n - 1);
      AtNext(g, t, calls, n - 1);
      StepOnRow(g, before, calls[n - 1], id);
      if RenamesAway(g, before, calls[n - 1], id) {
        assert AwayFrom(g, t, calls, id, n - 1, n);
      } else {
        NotCoreIsAway(g, t, calls, id, n - 1);
        var i :| 0 <= i < n - 1 && AwayFrom(g, t, calls, id, i, n - 1);
        AwayLonger(g, t, calls, id, i, n);
      }
    }
  }

  lemma AwayLonger(g: Rules, t: Table, calls: seq<(Call, bool)>, id: nat, i: nat, n: nat)
    requires i < n - 1 && n <= |calls| && AwayFrom(g, t, calls, id, i, n - 1)
    requires !BackAt(g, t, calls, id, n - 1)
    ensures AwayFrom(g, t, calls, id, i, n)
  {
  }

  /** Renamed away and not back, the row is not core, if it is still there. */
  lemma {:induction false} AwayIsNotCore(g: Rules, t: Table, calls: seq<(Call, bool)>, id: nat, i: nat, n: nat)
    requires IdsBelow(t) && id < t.nextId && i < n <= |calls| && AwayFrom(g, t, calls, id, i, n)
    ensures !IsCore(At(g, t, calls, n), id)
    decreases n
  {
    var before := At(g, t, calls, n - 1);
    IdsStay(g, t, calls, id, n - 1);
    AtNext(g, t, calls, n - 1);
    StepOnRow(g, before, calls[n - 1], id);
    if i < n - 1 {
      assert !BackAt(g, t, calls, id, n - 1);
      AwayIsNotCore(g, t, calls, id, i, n - 1);
    }
  }

  lemma {:induction false} GoneStaysGone(g: Rules, t: Table, calls: seq<(Call, bool)>, id: nat, m: nat, n: nat)
    requires IdsBelow(t) && id < t.nextId && m <= n <= |calls| && id !in At(g, t, calls, m).rows
    ensures id !in At(g, t, calls, n).rows
    decreases n
  {
    if m < n {
      GoneStaysGone(g, t, calls, id, m, n - 1);
      IdsStay(g, t, calls, id, n - 1);
      AtNext(g, t, calls, n - 1);
      StepOnRow(g, At(g, t, calls, n - 1), calls[n - 1], id);
    }
  }

  lemma {:induction false} GoneWasDeleted(g: Rules, t: Table, calls: seq<(Call, bool)>, id: nat, n: nat)
    requires IdsBelow(t) && IsCore(t, id) && n <= |calls| && id !in At(g, t, calls, n).rows
    ensures exists i, j :: 0 <= i < j < n && DeletedWhileAway(g, t, calls, id, i, j)
    decreases n
  {
    assert calls[..0] == [];
    if id !in At(g, t, calls, n - 1).rows {
      GoneWasDeleted(g, t, calls, id, n - 1);
    } else {
      IdsStay(g, t, calls, id, n - 1);
      AtNext(g, t, calls, n - 1);
      StepOnRow(g, At(g, t, calls, n - 1), calls[n - 1], id);
      NotCoreIsAway(g, t, calls, id, n - 1);
      var i :| 0 <= i < n - 1 && AwayFrom(g, t, calls, id, i, n - 1);
      assert DeletedWhileAway(g, t, calls, id, i, n - 1);
    }
  }

  /**
   Over any run with any failures, a core setting is gone at the end if and only if some successful
   update renamed it to a key that is not core, none renamed it back, and then a delete of it
   reached the database.
   */
  lemma CoreIsGoneIff(g: Rules, t: Table, calls: seq<(Call, bool)>, id: nat)
    requires IdsBelow(t) && IsCore(t, id)
    ensures id !in Run(g, t, calls).rows <==>
            exists i, j :: 0 <= i < j < |calls| && DeletedWhileAway(g, t, calls, id, i, j)
  {
    var n := |calls|;
    assert calls[..n] == calls;
    if id !in Run(g, t, calls).rows {
      GoneWasDeleted(g, t, calls, id, n);
    }
    if i, j :| 0 <= i < j < n && DeletedWhileAway(g, t, calls, id, i, j) {
      AwayIsNotCore(g, t, calls, id, i, j);
      IdsStay(g, t, calls, id, j);
      AtNext(g, t, calls, j);
      StepOnRow(g, At(g, t, calls, j), calls[j], id);
      GoneStaysGone(g, t, calls, id, j + 1, n);
    }
  }

  class Service {
    const rules: Rules
    var rows: map<nat, Setting>
    var nextId: nat

    constructor (rules: Rules)
      ensures this.rules == rules && Contents() == Table(map[], 1)
    {
      this.rules := rules;
      rows, nextId := map[], 1;
    }

    ghost function Contents(): Table
      reads this
    {
      Table(rows, nextId)
    }

    method CreateSetting(req: CreateRequest, createBy: nat, stored: bool) returns (failure: Option<Failure>)
      modifies this
      ensures Contents() == Step(rules, old(Contents()), Create(req, createBy), stored)
      ensures failure == if CreateFailure(rules, old(Contents()), req).Some? then CreateFailure(rules, old(Contents()), req)
                         else if stored then None else Some(DbFailure)
    {
      var duplicate := KeyTaken(rules, Table(rows, nextId), req.key, 0);
      if duplicate {
        return Some(DuplicateKey);
      }
      if !ValidateValue(rules, req.kind, req.value) {
        return Some(InvalidValue);
      }
      if !stored {
        return Some(DbFailure);
      }
      rows := rows[nextId := Setting(req.category, req.key, req.value, req.kind, req.description, createBy)];
      nextId := nextId + 1;
      return None;
    }

    /** The response is the model after copying. */
    method UpdateSetting(req: UpdateRequest, stored: bool) returns (failure: Option<Failure>, response: Option<Setting>)
      modifies this`rows
      ensures Contents() == Step(rules, old(Contents()), Update(req), stored)
      ensures failure == if UpdateFailure(rules, old(Contents()), req).Some? then UpdateFailure(rules, old(Contents()), req)
                         else if stored then None else Some(DbFailure)
      ensures response == if failure.None? then Some(Copied(old(rows)[req.id], req)) else None
    {
      if req.id !in rows {
        return Some(NotFound), None;
      }
      var setting := rows[req.id];
      if req.key != "" && req.key != setting.key {
        var duplicate := KeyTaken(rules, Table(rows, nextId), req.key, req.id);
        if duplicate {
          return Some(DuplicateKey), None;
        }
      }
      if !ValidateValue(rules, req.kind, req.value) {
        return Some(InvalidValue), None;
      }
      var model := Copied(setting, req);
      if !stored {
        return Some(DbFailure), None;
      }
      rows := rows[req.id := Stored(setting, model)];
      return None, Some(model);
    }

    method DeleteOne(id: nat, stored: bool) returns (failure: Option<Failure>)
      modifies this`rows
      ensures Contents() == Step(rules, old(Contents()), Delete(id), stored)
      ensures failure == if DeleteFailure(old(Contents()), id).Some? then DeleteFailure(old(Contents()), id)
                         else if stored then None else Some(DbFailure)
    {
      if id !in rows {
        return Some(NotFound);
      }
      if rows[id].key in CORE_KEYS {
        return Some(CoreKey);
      }
      if !stored {
        return Some(DbFailure);
      }
      rows := rows - {id};
      return None;
    }

    /**
     Goes on after a failing id. Exactly the non-core settings that some stored delete lists are
     gone, and there is no error exactly when every delete is stored, the ids are distinct and each
     names a non-core setting.
     */
    method DeleteBatch(ids: seq<nat>, stored: seq<bool>) returns (ok: bool)
      requires |stored| == |ids|
      modifies this`rows
      ensures BatchDone(old(rows), ids, stored, rows, |ids|)
      ensures ok <==> AllDeleted(old(rows), ids, stored, |ids|)
    {
      ok := true;
      for i := 0 to |ids|
        invariant BatchDone(old(rows), ids, stored, rows, i)
        invariant ok <==> AllDeleted(old(rows), ids, stored, i)
      {
        BatchStep(old(rows), ids, stored, rows, i);
        var failure := DeleteOne(ids[i], stored[i]);
        if failure.Some? {
          ok := false;
        }
      }
    }
  }

  predicate Deletable(rows: map<nat, Setting>, id: nat) {
    id in rows && rows[id].key !in CORE_KEYS
  }

  /** One of the first n deletes is of the id and reaches the database. */
  predicate Listed(ids: seq<nat>, stored: seq<bool>, id: nat, n: nat)
    requires n <= |ids| == |stored|
  {
    exists i :: 0 <= i < n && ids[i] == id && stored[i]
  }

  ghost predicate BatchDone(before: map<nat, Setting>, ids: seq<nat>, stored: seq<bool>, after: map<nat, Setting>, n: nat)
    requires n <= |ids| == |stored|
  {
    && (forall id :: id in after <==> id in before && !(Deletable(before, id) && Listed(ids, stored, id, n)))
    && (forall id :: id in after ==> after[id] == before[id])
  }

  ghost predicate AllDeleted(before: map<nat, Setting>, ids: seq<nat>, stored: seq<bool>, n: nat)
    requires n <= |ids| == |stored|
  {
    && (forall i :: 0 <= i < n ==> Deletable(before, ids[i]) && stored[i])
    && (forall i, j :: 0 <= i < j < n ==> ids[i] != ids[j])
  }

  /** One delete of the batch. */
  lemma BatchStep(before: map<nat, Setting>, ids: seq<nat>, stored: seq<bool>, now: map<nat, Setting>, n: nat)
    requires n < |ids| == |stored| && BatchDone(before, ids, stored, now, n)
    ensures BatchDone(before, ids, stored, if stored[n] && Deletable(now, ids[n]) then now - {ids[n]} else now, n + 1)
    ensures AllDeleted(before, ids, stored, n + 1) <==>
            AllDeleted(before, ids, stored, n) && stored[n] && Deletable(now, ids[n])
  {
    var id := ids[n];
    forall x ensures Listed(ids, stored, x, n + 1) <==> Listed(ids, stored, x, n) || (x == id && stored[n]) {
      if x == id && stored[n] {
        assert ids[n] == x && stored[n];
      }
    }
    if AllDeleted(before, ids, stored, n) && id in before && id !in now {
      var i :| 0 <= i < n && ids[i] == id && stored[i];
    }
  }
}
