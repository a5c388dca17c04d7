/**
 The scheduled-task manager (pkg/cron/cron.go). AddTask holds the mutex across its two effects;
 RemoveTask and Pause/Resume release it between theirs, so those phases are separate steps.
 */
module Cron {
  import opened Wrappers

  type Name = string
  type Handler = nat

  datatype Job = Job(entry: nat, expr: string, run: Handler)

  // disabled.Store(value) on a job that a lookup returned earlier.
  datatype StoreOp = StoreOp(entry: nat, value: bool)

  datatype State = State(
    tasks: map<Name, Job>,       // tm.tasks
    entries: set<Job>,           // what the scheduler holds
    disabled: set<nat>,          // the jobs, by entry, whose flag is set
    lastEntry: nat,              // the scheduler's id counter
    adding: Option<(Name, Job)>, // an AddTask between scheduling and mapping; it holds the mutex
    removing: set<Job>,          // RemoveTask calls between unmapping and unscheduling
    pending: multiset<StoreOp>)  // Pause and Resume calls between lookup and store

  datatype Step =
    | BeginAdd(name: Name, expr: string, run: Handler)
    | FinishAdd
    | BeginRemove(name: Name)
    | FinishRemove(job: Job)
    | Find(name: Name, value: bool)
    | Store(op: StoreOp)

  const EMPTY := State(map[], {}, {}, 0, None, {}, multiset{})

  /** A step that is not enabled, because of the mutex or because its first phase has not run, does nothing. */
  function Next(parses: string -> bool, s: State, e: Step): State {
    match e
    case BeginAdd(name, expr, run) =>
      if s.adding.Some? || name in s.tasks || !parses(expr) then s else
      var job := Job(s.lastEntry + 1, expr, run);
      s.(entries := s.entries + {job}, lastEntry := s.lastEntry + 1, adding := Some((name, job)))
    case FinishAdd =>
      if s.adding.None? then s else
      s.(tasks := s.tasks[s.adding.value.0 := s.adding.value.1], adding := None)
    case BeginRemove(name) =>
      if s.adding.Some? || name !in s.tasks then s else
      s.(tasks := s.tasks - {name}, removing := s.removing + {s.tasks[name]})
    case FinishRemove(job) =>
      if job !in s.removing then s else
      s.(entries := s.entries - {job}, removing := s.removing - {job})
    case Find(name, value) =>
      if s.adding.Some? || name !in s.tasks then s else
      s.(pending := s.pending + multiset{StoreOp(s.tasks[name].entry, value)})
    case Store(op) =>
      if op !in s.pending then s else
      s.(pending := s.pending - multiset{op},
         disabled := if op.value then s.disabled + {op.entry} else s.disabled - {op.entry})
  }

  function Run(parses: string -> bool, s: State, steps: seq<Step>): State
    decreases |steps|
  {
    if steps == [] then s else Run(parses, Next(parses, s, steps[0]), steps[1..])
  }

  predicate Mapped(s: State, job: Job) {
    exists n :: n in s.tasks && s.tasks[n] == job
  }

  predicate Adding(s: State, job: Job) {
    s.adding.Some? && s.adding.value.1 == job
  }

  /** The scheduler holds the jobs of mapped tasks, of removals in flight and of an addition in flight, each one of these. */
  ghost predicate EntriesAccounted(s: State) {
    && (forall job :: job in s.entries <==> Mapped(s, job) || job in s.removing || Adding(s, job))
    && (forall job :: job in s.removing ==> !Mapped(s, job) && !Adding(s, job))
    && (forall job :: Adding(s, job) ==> !Mapped(s, job))
    && (s.adding.Some? ==> s.adding.value.0 !in s.tasks)
  }

  ghost predicate EntriesDistinct(s: State) {
    && (forall job, other :: job in s.entries && other in s.entries && job.entry == other.entry ==> job == other)
    && (forall m, n :: m in s.tasks && n in s.tasks && s.tasks[m] == s.tasks[n] ==> m == n)
  }

  ghost predicate IdsUsed(s: State) {
    && (forall job :: job in s.entries ==> 1 <= job.entry <= s.lastEntry)
    && (forall op :: op in s.pending ==> op.entry <= s.lastEntry)
    && (forall id :: id in s.disabled ==> id <= s.lastEntry)
  }

  ghost predicate Inv(s: State) {
    EntriesAccounted(s) && EntriesDistinct(s) && IdsUsed(s)
  }

  /** The scheduler holds a job for the name whose wrapped function gets as far as the task's body. */
  ghost predicate Triggers(s: State, name: Name) {
    exists job :: job in s.entries && name in s.tasks && s.tasks[name] == job && job.entry !in s.disabled
  }

  lemma NextKeepsAccount(parses: string -> bool, s: State, e: Step)
    requires Inv(s)
    ensures EntriesAccounted(Next(parses, s, e))
  {
    match e
    case BeginAdd(name, expr, run) => BeginAddAccount(parses, s, name, expr, run);
    case FinishAdd => FinishAddAccount(parses, s);
    case BeginRemove(name) => BeginRemoveAccount(parses, s, name);
    case FinishRemove(job) => FinishRemoveAccount(parses, s, job);
    case _ => PauseAccount(parses, s, e);
  }

  lemma PauseAccount(parses: string -> bool, s: State, e: Step)
    requires EntriesAccounted(s) && (e.Find? || e.Store?)
    ensures EntriesAccounted(Next(parses, s, e))
  {
    PauseFrame(parses, s, e);
    AccountFrame(s, Next(parses, s, e));
  }

  lemma PauseFrame(parses: string -> bool, s: State, e: Step)
    requires e.Find? || e.Store?
    ensures var t := Next(parses, s, e);
            t.tasks == s.tasks && t.entries == s.entries && t.removing == s.removing && t.adding == s.adding
  {
  }

  lemma AccountFrame(s: State, t: State)
    requires EntriesAccounted(s)
    requires t.tasks == s.tasks && t.entries == s.entries && t.removing == s.removing && t.adding == s.adding
    ensures EntriesAccounted(t)
  {
    SameTasks(s, t);
    assert forall job :: Adding(t, job) == Adding(s, job);
  }

  /** The job of the next entry is nowhere yet. */
  lemma NextEntryIsNew(s: State, expr: string, run: Handler)
    requires Inv(s)
    ensures var job := Job(s.lastEntry + 1, expr, run);
            job !in s.entries && job !in s.removing && !Mapped(s, job)
  {
  }

  lemma BeginAddAccount(parses: string -> bool, s: State, name: Name, expr: string, run: Handler)
    requires Inv(s)
    ensures EntriesAccounted(Next(parses, s, BeginAdd(name, expr, run)))
  {
    var t := Next(parses, s, BeginAdd(name, expr, run));
    SameTasks(s, t);
    NextEntryIsNew(s, expr, run);
    if t == s {
      AccountFrame(s, t);
    } else {
      assert forall job :: Adding(t, job) <==> job == Job(s.lastEntry + 1, expr, run);
      assert forall job :: !Adding(s, job);
    }
  }

  lemma FinishRemoveAccount(parses: string -> bool, s: State, gone: Job)
    requires Inv(s)
    ensures EntriesAccounted(Next(parses, s, FinishRemove(gone)))
  {
    var t := Next(parses, s, FinishRemove(gone));
    SameTasks(s, t);
    assert forall job :: Adding(t, job) == Adding(s, job);
  }

  lemma SameTasks(s: State, t: State)
    requires t.tasks == s.tasks
    ensures forall job :: Mapped(t, job) == Mapped(s, job)
  {
  }

  lemma FinishAddAccount(parses: string -> bool, s: State)
    requires Inv(s)
    ensures EntriesAccounted(Next(parses, s, FinishAdd))
  {
    if s.adding.Some? {
      var t := Next(parses, s, FinishAdd);
      var (name, added) := s.adding.value;
      assert t.tasks[name] == added;
      assert Adding(s, added);
      forall job ensures Mapped(t, job) <==> Mapped(s, job) || job == added {
        if n :| n in s.tasks && s.tasks[n] == job {
          assert t.tasks[n] == job;
        }
      }
    }
  }

  lemma BeginRemoveAccount(parses: string -> bool, s: State, name: Name)
    requires Inv(s)
    ensures EntriesAccounted(Next(parses, s, BeginRemove(name)))
  {
    if s.adding.None? && name in s.tasks {
      var t := Next(parses, s, BeginRemove(name));
      forall job ensures Mapped(t, job) <==> Mapped(s, job) && job != s.tasks[name] {
        if n :| n in s.tasks && s.tasks[n] == job && job != s.tasks[name] {
          assert t.tasks[n] == job;
        }
      }
      assert Mapped(s, s.tasks[name]);
    }
  }

  lemma NextKeepsIds(parses: string -> bool, s: State, e: Step)
    requires Inv(s)
    ensures IdsUsed(Next(parses, s, e))
  {
    if e.Find? && s.adding.None? && e.name in s.tasks {
      assert Mapped(s, s.tasks[e.name]);
    }
  }

  lemma NextKeepsDistinct(parses: string -> bool, s: State, e: Step)
    requires Inv(s)
    ensures EntriesDistinct(Next(parses, s, e))
  {
    if e.FinishAdd? && s.adding.Some? {
      assert Adding(s, s.adding.value.1);
      forall n | n in s.tasks ensures s.tasks[n] != s.adding.value.1 {
        assert Mapped(s, s.tasks[n]);
      }
    }
  }

  /** In every interleaving. */
  lemma {:induction false} RunKeepsInv(parses: string -> bool, s: State, steps: seq<Step>)
    requires Inv(s)
    ensures Inv(Run(parses, s, steps))
    decreases |steps|
  {
    if steps != [] {
      NextKeepsAccount(parses, s, steps[0]);
      NextKeepsIds(parses, s, steps[0]);
      NextKeepsDistinct(parses, s, steps[0]);
      RunKeepsInv(parses, Next(parses, s, steps[0]), steps[1..]);
    }
  }

  ghost predicate AtRest(s: State) {
    s.adding.None? && s.removing == {}
  }

  /** With no call in flight, names and scheduler entries correspond one to one. */
  lemma BijectionAtRest(parses: string -> bool, steps: seq<Step>)
    requires AtRest(Run(parses, EMPTY, steps))
    ensures var s := Run(parses, EMPTY, steps);
            && s.entries == s.tasks.Values && |s.entries| == |s.tasks|
            && forall m, n :: m in s.tasks && n in s.tasks && s.tasks[m].entry == s.tasks[n].entry ==> m == n
  {
    var s := Run(parses, EMPTY, steps);
    RunKeepsInv(parses, EMPTY, steps);
    forall job ensures job in s.entries <==> job in s.tasks.Values {
      assert job in s.entries <==> Mapped(s, job);
    }
    InjectiveSize(s.tasks);
  }

  ghost predicate Injective(tasks: map<Name, Job>) {
    forall m, n :: m in tasks && n in tasks && tasks[m] == tasks[n] ==> m == n
  }

  lemma WithoutName(tasks: map<Name, Job>, n: Name)
    requires Injective(tasks) && n in tasks
    ensures var rest := tasks - {n};
            Injective(rest) && tasks[n] !in rest.Values && tasks.Values == rest.Values + {tasks[n]}
  {
    var rest := tasks - {n};
    forall job | job in tasks.Values ensures job in rest.Values + {tasks[n]} {
      var m :| m in tasks && tasks[m] == job;
      assert m != n ==> rest[m] == job;
    }
  }

  lemma {:induction false} InjectiveSize(tasks: map<Name, Job>)
    requires Injective(tasks)
    ensures |tasks.Values| == |tasks|
    decreases |tasks|
  {
    if tasks != map[] {
      var n :| n in tasks;
      WithoutName(tasks, n);
      InjectiveSize(tasks - {n});
    }
  }

  predicate Scheduled(s: State, entry: nat) {
    exists job :: job in s.entries && job.entry == entry
  }

  lemma NextKeepsGone(parses: string -> bool, s: State, e: Step, entry: nat)
    requires entry <= s.lastEntry && !Scheduled(s, entry)
    ensures entry <= Next(parses, s, e).lastEntry && !Scheduled(Next(parses, s, e), entry)
  {
    var t := Next(parses, s, e);
    if job :| job in t.entries && job.entry == entry {
      assert job in s.entries;
    }
  }

  /** Once an entry has left the scheduler nothing brings it back. */
  lemma {:induction false} RemovedIsGone(parses: string -> bool, s: State, steps: seq<Step>, entry: nat)
    requires entry <= s.lastEntry && !Scheduled(s, entry)
    ensures !Scheduled(Run(parses, s, steps), entry)
    decreases |steps|
  {
    if steps != [] {
      NextKeepsGone(parses, s, steps[0], entry);
      RemovedIsGone(parses, Next(parses, s, steps[0]), steps[1..], entry);
    }
  }

  /** A removal that gets to its second phase has taken the job off the scheduler. */
  lemma FinishUnschedules(parses: string -> bool, s: State, job: Job)
    requires Inv(s) && job in s.removing
    ensures !Scheduled(Next(parses, s, FinishRemove(job)), job.entry)
  {
    assert job in s.entries;
  }

  /** During the steps some PauseTask looks up a task whose job has this entry. */
  predicate PauseFinds(parses: string -> bool, s: State, steps: seq<Step>, entry: nat)
    decreases |steps|
  {
    steps != [] &&
    (|| (steps[0].Find? && steps[0].value && s.adding.None?
         && steps[0].name in s.tasks && s.tasks[steps[0].name].entry == entry)
     || PauseFinds(parses, Next(parses, s, steps[0]), steps[1..], entry))
  }

  /**
   A job is paused only by a PauseTask that looked it up: one that is still to store on an earlier
   job of the same name does not touch the job added since.
   */
  lemma StalePauseIsHarmless(parses: string -> bool, s: State, steps: seq<Step>, entry: nat)
    requires Inv(s) && entry > s.lastEntry && entry in Run(parses, s, steps).disabled
    ensures PauseFinds(parses, s, steps, entry)
  {
    if !PauseFinds(parses, s, steps, entry) {
      StaysEnabled(parses, s, steps, entry);
    }
  }

  lemma {:induction false} StaysEnabled(parses: string -> bool, s: State, steps: seq<Step>, entry: nat)
    requires entry !in s.disabled && StoreOp(entry, true) !in s.pending
    requires !PauseFinds(parses, s, steps, entry)
    ensures entry !in Run(parses, s, steps).disabled
    decreases |steps|
  {
    if steps != [] {
      StaysEnabled(parses, Next(parses, s, steps[0]), steps[1..], entry);
    }
  }

  lemma RunTwo(parses: string -> bool, s: State, a: Step, b: Step)
    ensures Run(parses, s, [a, b]) == Next(parses, Next(parses, s, a), b)
  {
    assert [a, b][1..] == [b];
    var t := Next(parses, s, a);
    assert Run(parses, t, [b]) == Run(parses, Next(parses, t, b), []);
  }

  /** Pausing stops a task's triggers and resuming lets them through again; those of other tasks stay as they were. */
  lemma PauseStops(parses: string -> bool, s: State, name: Name, value: bool, other: Name)
    requires Inv(s) && s.adding.None? && name in s.tasks
    ensures var t := Run(parses, s, [Find(name, value), Store(StoreOp(s.tasks[name].entry, value))]);
            && (Triggers(t, name) <==> !value)
            && (other != name ==> (Triggers(t, other) <==> Triggers(s, other)))
  {
    RunTwo(parses, s, Find(name, value), Store(StoreOp(s.tasks[name].entry, value)));
    assert Mapped(s, s.tasks[name]);
    if other in s.tasks {
      assert Mapped(s, s.tasks[other]);
    }
  }

  /** A task that has been added is triggered from then on, and one that has been removed is not. */
  lemma AddStarts(parses: string -> bool, s: State, name: Name, expr: string, run: Handler)
    requires Inv(s) && s.adding.None? && name !in s.tasks && parses(expr)
    ensures Triggers(Run(parses, s, [BeginAdd(name, expr, run), FinishAdd]), name)
    ensures !Triggers(s, name)
  {
    RunTwo(parses, s, BeginAdd(name, expr, run), FinishAdd);
    var t := Run(parses, s, [BeginAdd(name, expr, run), FinishAdd]);
    assert t.tasks[name] in t.entries && t.tasks[name].entry !in s.disabled;
  }

  // Loading a configuration.

  datatype TaskConfig = TaskConfig(name: Name, expr: string, disabled: bool)

  predicate Eligible(parses: string -> bool, handlers: map<Name, Handler>, c: TaskConfig) {
    !c.disabled && c.name in handlers && parses(c.expr)
  }

  /** The first eligible configuration of a name. */
  function FirstFor(parses: string -> bool, handlers: map<Name, Handler>, configs: seq<TaskConfig>, name: Name): Option<TaskConfig> {
    if configs == [] then None
    else if configs[0].name == name && Eligible(parses, handlers, configs[0]) then Some(configs[0])
    else FirstFor(parses, handlers, configs[1..], name)
  }

  lemma {:induction false} FirstForLonger(parses: string -> bool, handlers: map<Name, Handler>, configs: seq<TaskConfig>, c: TaskConfig, name: Name)
    ensures FirstFor(parses, handlers, configs + [c], name) ==
            if FirstFor(parses, handlers, configs, name).Some? then FirstFor(parses, handlers, configs, name)
            else if c.name == name && Eligible(parses, handlers, c) then Some(c) else None
  {
    if configs != [] {
      assert (configs + [c])[1..] == configs[1..] + [c];
      FirstForLonger(parses, handlers, configs[1..], c, name);
    }
  }

  /** Configuration i is enabled and parses, and none of its name before it is and does. */
  predicate FirstAt(parses: string -> bool, configs: seq<TaskConfig>, i: nat)
    requires i < |configs|
  {
    && !configs[i].disabled && parses(configs[i].expr)
    && forall j :: 0 <= j < i && configs[j].name == configs[i].name ==> configs[j].disabled || !parses(configs[j].expr)
  }

  lemma {:induction false} FirstForIff(parses: string -> bool, handlers: map<Name, Handler>, configs: seq<TaskConfig>, c: TaskConfig)
    ensures FirstFor(parses, handlers, configs, c.name) == Some(c) <==>
            c.name in handlers && exists i :: 0 <= i < |configs| && configs[i] == c && FirstAt(parses, configs, i)
  {
    if configs != [] {
      var rest := configs[1..];
      FirstForIff(parses, handlers, rest, c);
      if configs[0].name == c.name && Eligible(parses, handlers, configs[0]) {
        if configs[0] == c {
          assert FirstAt(parses, configs, 0);
        }
      } else if c.name in handlers {
        forall i | 0 <= i < |rest| && rest[i] == c ensures FirstAt(parses, rest, i) <==> FirstAt(parses, configs, i + 1) {
          assert configs[i + 1] == c;
          assert forall j :: 0 <= j < i ==> rest[j] == configs[j + 1];
        }
        if i :| 0 <= i < |rest| && rest[i] == c && FirstAt(parses, rest, i) {
          assert configs[i + 1] == c && FirstAt(parses, configs, i + 1);
        }
        if i :| 0 <= i < |configs| && configs[i] == c && FirstAt(parses, configs, i) {
          assert rest[i - 1] == c && FirstAt(parses, rest, i - 1);
        }
      }
    }
  }

  /** What a name maps to after loading configs into a manager that mapped it as before says. */
  ghost predicate LoadedName(handlers: map<Name, Handler>, before: map<Name, Job>, first: Option<TaskConfig>, after: map<Name, Job>, n: Name, last: nat) {
    if n in before then n in after && after[n] == before[n]
    else match first
      case None => n !in after
      case Some(c) =>
        && n in after && n in handlers
        && after[n].expr == c.expr && after[n].run == handlers[n] && after[n].entry > last
  }

  ghost predicate Loaded(parses: string -> bool, handlers: map<Name, Handler>, configs: seq<TaskConfig>, before: map<Name, Job>, after: map<Name, Job>, last: nat) {
    forall n :: LoadedName(handlers, before, FirstFor(parses, handlers, configs, n), after, n, last)
  }

  lemma LoadOne(parses: string -> bool, handlers: map<Name, Handler>, configs: seq<TaskConfig>, c: TaskConfig, before: map<Name, Job>, now: map<Name, Job>, last: nat, entry: nat)
    requires Loaded(parses, handlers, configs, before, now, last) && entry > last
    ensures var after := if Eligible(parses, handlers, c) && c.name !in now
                         then now[c.name := Job(entry, c.expr, handlers[c.name])] else now;
            Loaded(parses, handlers, configs + [c], before, after, last)
  {
    var after := if Eligible(parses, handlers, c) && c.name !in now
                 then now[c.name := Job(entry, c.expr, handlers[c.name])] else now;
    forall n ensures LoadedName(handlers, before, FirstFor(parses, handlers, configs + [c], n), after, n, last) {
      FirstForLonger(parses, handlers, configs, c, n);
      FirstForName(parses, handlers, configs, n);
      assert LoadedName(handlers, before, FirstFor(parses, handlers, configs, n), now, n, last);
    }
  }

  lemma {:induction false} FirstForName(parses: string -> bool, handlers: map<Name, Handler>, configs: seq<TaskConfig>, name: Name)
    ensures var r := FirstFor(parses, handlers, configs, name);
            r.Some? ==> r.value in configs && r.value.name == name && Eligible(parses, handlers, r.value)
  {
    if configs != [] {
      FirstForName(parses, handlers, configs[1..], name);
    }
  }

  datatype Status = Running | Paused | NotExist

  class TaskManager {
    const parses: string -> bool
    var tasks: map<Name, Job>
    var entries: set<Job>
    var disabled: set<nat>
    var lastEntry: nat

    constructor (parses: string -> bool)
      ensures this.parses == parses && Contents() == EMPTY && Valid()
    {
      this.parses := parses;
      tasks, entries, disabled, lastEntry := map[], {}, {}, 0;
    }

    ghost function Contents(): State
      reads this
    {
      State(tasks, entries, disabled, lastEntry, None, {}, multiset{})
    }

    ghost predicate Valid()
      reads this
    {
      Inv(Contents())
    }

    method AddTask(name: Name, expr: string, run: Handler) returns (ok: bool)
      requires Valid()
      modifies this
      ensures Valid()
      ensures Contents() == Run(parses, old(Contents()), [BeginAdd(name, expr, run), FinishAdd])
      ensures ok == (name !in old(tasks) && parses(expr))
      ensures tasks == if ok then old(tasks)[name := Job(old(lastEntry) + 1, expr, run)] else old(tasks)
      ensures lastEntry == old(lastEntry) + if ok then 1 else 0
      ensures disabled == old(disabled)
    {
      RunTwo(parses, Contents(), BeginAdd(name, expr, run), FinishAdd);
      RunKeepsInv(parses, Contents(), [BeginAdd(name, expr, run), FinishAdd]);
      if name in tasks || !parses(expr) {
        return false;
      }
      lastEntry := lastEntry + 1;
      var job := Job(lastEntry, expr, run);
      entries := entries + {job};
      tasks := tasks[name := job];
      return true;
    }

    method RemoveTask(name: Name) returns (found: bool)
      requires Valid()
      modifies this`tasks, this`entries
      ensures Valid()
      ensures found == (name in old(tasks))
      ensures name !in tasks && (found ==> old(tasks)[name] !in entries)
      ensures forall n :: n in old(tasks) && n != name ==> n in tasks && tasks[n] == old(tasks)[n] && tasks[n] in entries
      ensures Contents() == if found then Run(parses, old(Contents()), [BeginRemove(name), FinishRemove(old(tasks)[name])])
                            else old(Contents())
    {
      found := name in tasks;
      if found {
        var job := tasks[name];
        RunTwo(parses, Contents(), BeginRemove(name), FinishRemove(job));
        RunKeepsInv(parses, Contents(), [BeginRemove(name), FinishRemove(job)]);
        tasks := tasks - {name};
        entries := entries - {job};
      }
    }

    /** PauseTask with value true, ResumeTask with false */
    method SetDisabled(name: Name, value: bool) returns (found: bool)
      requires Valid()
      modifies this`disabled
      ensures Valid()
      ensures found == (name in tasks)
      ensures found ==> forall id :: id in disabled <==> if id == tasks[name].entry then value else id in old(disabled)
      ensures Contents() == if found then Run(parses, old(Contents()), [Find(name, value), Store(StoreOp(tasks[name].entry, value))])
                            else old(Contents())
    {
      found := name in tasks;
      if found {
        var entry := tasks[name].entry;
        RunTwo(parses, Contents(), Find(name, value), Store(StoreOp(entry, value)));
        RunKeepsInv(parses, Contents(), [Find(name, value), Store(StoreOp(entry, value))]);
        disabled := if value then disabled + {entry} else disabled - {entry};
      }
    }

    /** What a trigger of the task now would do. */
    method GetTaskStatus(name: Name) returns (status: Status)
      requires Valid()
      ensures status.Running? <==> Triggers(Contents(), name)
      ensures status.Paused? <==> name in tasks && tasks[name] in entries && !Triggers(Contents(), name)
    {
      assert name in tasks ==> Mapped(Contents(), tasks[name]);
      if name !in tasks {
        return NotExist;
      }
      status := if tasks[name].entry in disabled then Paused else Running;
    }

    /**
     Tasks that were there stay as they are; every other name ends with its first eligible
     configuration, running, or stays absent.
     */
    method LoadTasks(configs: seq<TaskConfig>, handlers: map<Name, Handler>)
      requires Valid()
      modifies this
      ensures Valid() && disabled == old(disabled)
      ensures Loaded(parses, handlers, configs, old(tasks), tasks, old(lastEntry))
    {
      for i := 0 to |configs|
        invariant Valid() && disabled == old(disabled) && lastEntry >= old(lastEntry)
        invariant Loaded(parses, handlers, configs[..i], old(tasks), tasks, old(lastEntry))
      {
        var c := configs[i];
        assert configs[..i + 1] == configs[..i] + [c];
        LoadOne(parses, handlers, configs[..i], c, old(tasks), tasks, old(lastEntry), lastEntry + 1);
        if c.disabled || c.name !in handlers {
          continue;
        }
        var _ := AddTask(c.name, c.expr, handlers[c.name]);
      }
      assert configs[..|configs|] == configs;
    }
  }
}
