/** `lock` of `oslo_concurrency/lockutils.py`: a semaphore per name from a garbage-collected table of the
    process, and inside it a file lock that processes exclude each other with, but threads of one process do not. */
module LockUtils {
  import opened Wrappers

  /* ---------- lock files ---------- */

  // `name.replace(os.sep, '_')`
  function Flattened(name: string): (r: string)
    ensures |r| == |name|
  {
    seq(|name|, i requires 0 <= i < |name| => if name[i] == '/' then '_' else name[i])
  }

  // `os.path.join` of two parts.
  function JoinPath(dir: string, name: string): string {
    if name != "" && name[0] == '/' then name
    else if dir == "" || dir[|dir| - 1] == '/' then dir + name
    else dir + "/" + name
  }

  // The file name: the prefix, a hyphen unless the prefix ends with one, and the flattened lock name.
  function Prefixed(prefix: string, flat: string): string {
    if prefix == "" then flat
    else if prefix[|prefix| - 1] == '-' then prefix + flat
    else prefix + "-" + flat
  }

  // `_get_lock_path`, with the directory of `lock_path` or of the configuration; None for RequiredOptError.
  function GetLockPath(name: string, prefix: string, dir: string): Option<string> {
    if dir == "" then None else Some(JoinPath(dir, Prefixed(prefix, Flattened(name))))
  }

  // Names that differ at most in slashes and underscores.
  predicate AlikeNames(a: string, b: string) {
    |a| == |b| && forall i :: 0 <= i < |a| ==> a[i] == b[i] || (a[i] in "/_" && b[i] in "/_")
  }

  // Two names share a lock file exactly when they differ at most in slashes and underscores.
  lemma SamePath(a: string, b: string, prefix: string, dir: string)
    requires dir != ""
    ensures GetLockPath(a, prefix, dir) == GetLockPath(b, prefix, dir) <==> AlikeNames(a, b)
  {
    FlattenedAlike(a, b);
    var (x, y) := (Flattened(a), Flattened(b));
    var head :=
      if prefix == "" then "" else if prefix[|prefix| - 1] == '-' then prefix else prefix + "-";
    NotAbsolute(a);
    NotAbsolute(b);
    var start :=
      if head != "" && head[0] == '/' then head
      else if dir[|dir| - 1] == '/' then dir + head
      else dir + "/" + head;
    assert GetLockPath(a, prefix, dir) == Some(start + x) by {
      Assembled(x, prefix, head, dir, start);
    }
    assert GetLockPath(b, prefix, dir) == Some(start + y) by {
      Assembled(y, prefix, head, dir, start);
    }
    assert (start + x)[|start|..] == x && (start + y)[|start|..] == y;
  }

  lemma FlattenedAlike(a: string, b: string)
    ensures Flattened(a) == Flattened(b) <==> AlikeNames(a, b)
  {
    if Flattened(a) == Flattened(b) {
      forall i | 0 <= i < |a| ensures a[i] == b[i] || (a[i] in "/_" && b[i] in "/_") {
        assert Flattened(a)[i] == Flattened(b)[i];
      }
    }
  }

  /** The lock file of a name is in the directory, under the prefix and a hyphen, of which there is one if the prefix
      ends with one, and then the name, its slashes made underscores. */
  lemma LockFileName(name: string, flat: string, prefix: string, dir: string)
    requires |flat| == |name| && forall i :: 0 <= i < |name| ==> flat[i] == if name[i] == '/' then '_' else name[i]
    requires '/' !in prefix && dir != "" && dir[|dir| - 1] != '/'
    ensures GetLockPath(name, "", dir) == Some(dir + "/" + flat)
    ensures GetLockPath(name, prefix + "-", dir) == Some(dir + "/" + (prefix + "-" + flat))
    ensures prefix != "" && prefix[|prefix| - 1] != '-' ==>
      GetLockPath(name, prefix, dir) == Some(dir + "/" + (prefix + "-" + flat))
    ensures GetLockPath(name, "", dir + "/") == Some(dir + "/" + flat)
    ensures GetLockPath(name, prefix, "") == None
  {
    assert flat == Flattened(name);
    assert flat != "" ==> flat[0] != '/';
    var p := prefix + "-";
    assert p[|p| - 1] == '-' && p[0] != '/';
    assert (p + flat)[0] == p[0] && prefix + "-" + flat == p + flat;
  }

  lemma NotAbsolute(name: string)
    ensures Flattened(name) != "" ==> Flattened(name)[0] != '/'
  {
  }

  lemma Assembled(flat: string, prefix: string, head: string, dir: string, start: string)
    requires dir != "" && (flat != "" ==> flat[0] != '/')
    requires head == if prefix == "" then "" else if prefix[|prefix| - 1] == '-' then prefix else prefix + "-"
    requires start == if head != "" && head[0] == '/' then head
                      else if dir[|dir| - 1] == '/' then dir + head else dir + "/" + head
    ensures JoinPath(dir, Prefixed(prefix, flat)) == start + flat
  {
    hide JoinPath, Prefixed;
    HeadFlat(prefix, flat, head);
    JoinHead(dir, head, flat, start);
  }

  lemma HeadFlat(prefix: string, flat: string, head: string)
    requires head == if prefix == "" then "" else if prefix[|prefix| - 1] == '-' then prefix else prefix + "-"
    ensures Prefixed(prefix, flat) == head + flat
  {
  }

  lemma JoinHead(dir: string, head: string, flat: string, start: string)
    requires dir != "" && (flat != "" ==> flat[0] != '/')
    requires start == if head != "" && head[0] == '/' then head
                      else if dir[|dir| - 1] == '/' then dir + head else dir + "/" + head
    ensures JoinPath(dir, head + flat) == start + flat
  {
    if head == "" {
      assert head + flat == flat;
      assert dir + head == dir && dir + "/" + head == dir + "/";
    } else {
      assert (head + flat)[0] == head[0];
      assert dir + head + flat == dir + (head + flat);
      assert dir + "/" + head + flat == dir + "/" + (head + flat);
    }
  }

  /* ---------- the semaphore table ---------- */

  // What `Semaphores.get` does to a table: the entry that is there, or a new one for a semaphore no entry has.
  ghost predicate Gets(table: map<string, nat>, name: string, table': map<string, nat>, sem: nat) {
    && name in table' && table'[name] == sem
    && (if name in table then table' == table
        else table' == table[name := sem] && forall n :: n in table ==> table[n] != sem)
  }

  // `Semaphores`, with object identity as a number that is never given out twice.
  class Semaphores {
    var table: map<string, nat>
    var created: nat

    ghost predicate Valid()
      reads this
    {
      && (forall n :: n in table ==> table[n] < created)
      && (forall m, n :: m in table && n in table && table[m] == table[n] ==> m == n)
    }

    constructor ()
      ensures Valid() && table == map[]
    {
      table, created := map[], 0;
    }

    method Get(name: string) returns (sem: nat)
      requires Valid()
      modifies this
      ensures Valid() && Gets(old(table), name, table, sem)
    {
      if name in table {
        return table[name];
      }
      sem := created;
      created := created + 1;
      table := table[name := sem];
    }

    // The collector drops an entry whose semaphore nobody refers to.
    method Collect(name: string)
      requires Valid()
      modifies this`table
      ensures Valid() && table == old(table) - {name}
    {
      table := table - {name};
    }
  }

  /* ---------- processes and threads ---------- */

  type Proc = nat
  type Sem = nat

  datatype Tid = Tid(proc: Proc, id: nat)

  // How far a thread is in a call of lock(name).
  datatype Phase =
    | Idle
    | WantTable(name: string, external: bool)             // before `with self._lock`
    | InTable(name: string, external: bool)               // about to look the name up
    | Missed(name: string, external: bool)                // the name is not there
    | LeaveTable(name: string, external: bool, sem: Sem)  // about to leave `Semaphores.get`
    | WantSem(name: string, external: bool, sem: Sem)     // before `with int_lock`
    | HasSem(name: string, external: bool, sem: Sem)      // inside it, before the file lock
    | Inside(name: string, external: bool, sem: Sem, file: bool)  // in the body, holding the lock file or not
    | Leaving(name: string, sem: Sem)                     // after the body, before the semaphore is released

  datatype State = State(
    phases: map<Tid, Phase>,
    tableLock: map<Proc, Tid>,            // who is inside `Semaphores._lock`
    table: map<(Proc, string), Sem>,      // the weak table of each process
    value: map<Sem, nat>,                 // semaphore counters
    nextSem: Sem,
    fileOwner: map<string, Proc>)         // the process that holds a lock file

  // The names in use and the lock file of each, and whether locking between processes is disabled or has no lock path.
  datatype Config = Config(names: set<string>, path: string -> string, disabled: bool, pathless: bool)

  // Calls with `external` use lock files.
  predicate UsesFiles(c: Config) {
    !c.disabled && !c.pathless
  }

  datatype Step =
    | Begin(t: Tid, name: string, external: bool)
    | EnterTable(t: Tid)
    | LookUp(t: Tid)
    | Create(t: Tid)
    | ExitTable(t: Tid)
    | AcquireSem(t: Tid)
    | AcquireFile(t: Tid)
    | EnterPlain(t: Tid)                  // not external, or process locking is disabled
    | NoLockPath(t: Tid)                  // `external_lock` raises: there is no lock path
    | LeaveBody(t: Tid)
    | ReleaseSem(t: Tid)
    | Collect(proc: Proc, name: string)   // the garbage collector drops a table entry

  function PhaseOf(s: State, t: Tid): Phase {
    if t in s.phases then s.phases[t] else Idle
  }

  // The phases in which a thread's own frame keeps a semaphore alive.
  predicate HasRef(p: Phase) {
    p.LeaveTable? || p.WantSem? || p.HasSem? || p.Inside? || p.Leaving?
  }

  predicate Refers(p: Phase, sem: Sem) {
    HasRef(p) && p.sem == sem
  }

  predicate Holds(p: Phase) {
    p.HasSem? || p.Inside? || p.Leaving?
  }

  predicate UsesTable(p: Phase) {
    p.InTable? || p.Missed? || p.LeaveTable?
  }

  predicate Enabled(c: Config, s: State, step: Step) {
    match step
    case Begin(t, name, _) => PhaseOf(s, t).Idle? && name in c.names
    case EnterTable(t) => PhaseOf(s, t).WantTable? && t.proc !in s.tableLock
    case LookUp(t) => PhaseOf(s, t).InTable?
    case Create(t) => PhaseOf(s, t).Missed?
    case ExitTable(t) => PhaseOf(s, t).LeaveTable?
    case AcquireSem(t) =>
      PhaseOf(s, t).WantSem? && PhaseOf(s, t).sem in s.value && s.value[PhaseOf(s, t).sem] > 0
    case AcquireFile(t) =>
      var p := PhaseOf(s, t);
      p.HasSem? && p.external && UsesFiles(c)
          && (c.path(p.name) !in s.fileOwner || s.fileOwner[c.path(p.name)] == t.proc)
    case EnterPlain(t) => PhaseOf(s, t).HasSem? && (!PhaseOf(s, t).external || c.disabled)
    case NoLockPath(t) => PhaseOf(s, t).HasSem? && PhaseOf(s, t).external && !c.disabled && c.pathless
    case LeaveBody(t) => PhaseOf(s, t).Inside?
    case ReleaseSem(t) => PhaseOf(s, t).Leaving? && PhaseOf(s, t).sem in s.value
    case Collect(proc, name) =>
      (proc, name) in s.table && forall t :: t in s.phases && t.proc == proc ==>
          !Refers(s.phases[t], s.table[(proc, name)])
  }

  function To(s: State, t: Tid, p: Phase): State {
    s.(phases := s.phases[t := p])
  }

  function Apply(c: Config, s: State, step: Step): State
    requires Enabled(c, s, step)
  {
    match step
    case Begin(t, name, external) => To(s, t, WantTable(name, external))
    case EnterTable(t) =>
      var p := PhaseOf(s, t);
      To(s, t, InTable(p.name, p.external)).(tableLock := s.tableLock[t.proc := t])
    case LookUp(t) =>
      var p := PhaseOf(s, t);
      if (t.proc, p.name) in s.table then To(s, t, LeaveTable(p.name, p.external, s.table[(t.proc, p.name)]))
      else To(s, t, Missed(p.name, p.external))
    case Create(t) =>
      var p := PhaseOf(s, t);
      To(s, t, LeaveTable(p.name, p.external, s.nextSem))
        .(table := s.table[(t.proc, p.name) := s.nextSem], value := s.value[s.nextSem := 1], nextSem := s.nextSem + 1)
    case ExitTable(t) =>
      var p := PhaseOf(s, t);
      To(s, t, WantSem(p.name, p.external, p.sem)).(tableLock := s.tableLock - {t.proc})
    case AcquireSem(t) =>
      var p := PhaseOf(s, t);
      To(s, t, HasSem(p.name, p.external, p.sem)).(value := s.value[p.sem := s.value[p.sem] - 1])
    case AcquireFile(t) =>
      var p := PhaseOf(s, t);
      To(s, t, Inside(p.name, p.external, p.sem, true)).(fileOwner := s.fileOwner[c.path(p.name) := t.proc])
    case EnterPlain(t) =>
      var p := PhaseOf(s, t);
      To(s, t, Inside(p.name, p.external, p.sem, false))
    case NoLockPath(t) =>
      var p := PhaseOf(s, t);
      To(s, t, Leaving(p.name, p.sem))
    case LeaveBody(t) =>
      var p := PhaseOf(s, t);
      var s' := To(s, t, Leaving(p.name, p.sem));
      var path := c.path(p.name);
      if p.file && path in s.fileOwner && s.fileOwner[path] == t.proc
      then s'.(fileOwner := s.fileOwner - {path}) else s'
    case ReleaseSem(t) =>
      var p := PhaseOf(s, t);
      To(s, t, Idle).(value := s.value[p.sem := s.value[p.sem] + 1])
    case Collect(proc, name) => s.(table := s.table - {(proc, name)})
  }

  // An entry can be collected exactly while no frame of a thread of its process has its semaphore.
  lemma CollectIff(c: Config, s: State, proc: Proc, name: string)
    ensures Enabled(c, s, Collect(proc, name)) <==>
      && (proc, name) in s.table
      && forall t :: t in s.phases && t.proc == proc ==>
           var p := s.phases[t];
           (p.LeaveTable? || p.WantSem? || p.HasSem? || p.Inside? || p.Leaving? ==> p.sem != s.table[(proc, name)])
  {
  }

  const START := State(map[], map[], map[], map[], 0, map[])

  // Any interleaving: a list of steps each of which can be taken where it comes.
  predicate Legal(c: Config, steps: seq<Step>)
    decreases steps, 0
  {
    steps == [] ||
    (Legal(c, steps[..|steps| - 1]) && Enabled(c, After(c, steps[..|steps| - 1]), steps[|steps| - 1]))
  }

  function After(c: Config, steps: seq<Step>): State
    requires Legal(c, steps)
    decreases steps, 1
  {
    if steps == [] then START
    else Apply(c, After(c, steps[..|steps| - 1]), steps[|steps| - 1])
  }

  /* ---------- the invariant ---------- */

  // One thread of a process at a time is inside the table's own lock.
  ghost predicate TableGuarded(s: State) {
    && (forall t :: UsesTable(PhaseOf(s, t)) <==> t.proc in s.tableLock && s.tableLock[t.proc] == t)
    && (forall proc :: proc in s.tableLock ==> s.tableLock[proc].proc == proc)
  }

  predicate IsEntry(s: State, t: Tid, p: Phase)
    requires HasRef(p)
  {
    (t.proc, p.name) in s.table && s.table[(t.proc, p.name)] == p.sem
  }

  // A thread that refers to a semaphore refers to the one the table has for its name.
  ghost predicate TableCurrent(s: State) {
    && (forall t :: HasRef(PhaseOf(s, t)) ==> IsEntry(s, t, PhaseOf(s, t)))
    && (forall t :: PhaseOf(s, t).Missed? ==> (t.proc, PhaseOf(s, t).name) !in s.table)
  }

  // Different entries are different semaphores, all of them created before.
  ghost predicate TableInjective(s: State) {
    && (forall k :: k in s.table ==> s.table[k] < s.nextSem && s.table[k] in s.value && s.value[s.table[k]] <= 1)
    && (forall k, l :: k in s.table && l in s.table && s.table[k] == s.table[l] ==> k == l)
  }

  // A semaphore that is held has nothing left to give, and is held once.
  ghost predicate SemExclusive(s: State) {
    && (forall t :: Holds(PhaseOf(s, t)) ==> PhaseOf(s, t).sem in s.value && s.value[PhaseOf(s, t).sem] == 0)
    && (forall t, u :: Holds(PhaseOf(s, t)) && Holds(PhaseOf(s, u)) && PhaseOf(s, t).sem == PhaseOf(s, u).sem ==>
         t == u)
  }

  ghost predicate Inv(s: State) {
    TableGuarded(s) && TableCurrent(s) && TableInjective(s) && SemExclusive(s)
  }

  // A process gives up and takes no lock file but its own, and one that leaves a body gives up the file it held there.
  lemma FilesOfOthers(c: Config, s: State, step: Step, path: string)
    requires Enabled(c, s, step)
    ensures path in s.fileOwner && (step.Collect? || s.fileOwner[path] != step.t.proc) ==>
      path in Apply(c, s, step).fileOwner && Apply(c, s, step).fileOwner[path] == s.fileOwner[path]
    ensures path !in s.fileOwner && path in Apply(c, s, step).fileOwner ==>
      step.AcquireFile? && Apply(c, s, step).fileOwner[path] == step.t.proc
    ensures (&& step.LeaveBody? && PhaseOf(s, step.t).file && path == c.path(PhaseOf(s, step.t).name)
             && path in s.fileOwner && s.fileOwner[path] == step.t.proc) ==> path !in Apply(c, s, step).fileOwner
  {
  }

  // A step moves one thread or none.
  lemma OneMoves(c: Config, s: State, step: Step, t: Tid)
    requires Enabled(c, s, step) && (step.Collect? || t != step.t)
    ensures PhaseOf(Apply(c, s, step), t) == PhaseOf(s, t)
  {
  }

  lemma TableUnmoved(c: Config, s: State, step: Step)
    requires Enabled(c, s, step) && !step.Create? && !step.Collect?
    ensures Apply(c, s, step).table == s.table
    ensures Apply(c, s, step).nextSem == s.nextSem
  {
  }

  lemma TableLockAfter(c: Config, s: State, step: Step)
    requires Enabled(c, s, step) && !step.Collect?
    ensures Apply(c, s, step).tableLock ==
      if step.EnterTable? then s.tableLock[step.t.proc := step.t]
      else if step.ExitTable? then s.tableLock - {step.t.proc} else s.tableLock
    ensures step.EnterTable? ==> step.t.proc !in s.tableLock
    ensures step.ExitTable? ==> UsesTable(PhaseOf(s, step.t))
  {
  }

  lemma UsesTableAfter(c: Config, s: State, step: Step)
    requires Enabled(c, s, step) && !step.Collect?
    ensures UsesTable(PhaseOf(Apply(c, s, step), step.t)) <==>
      step.EnterTable? || (UsesTable(PhaseOf(s, step.t)) && !step.ExitTable?)
  {
  }

  lemma GuardedStep(c: Config, s: State, step: Step)
    requires TableGuarded(s) && Enabled(c, s, step)
    ensures TableGuarded(Apply(c, s, step))
  {
    if step.Collect? {
    } else {
      TableLockAfter(c, s, step);
      UsesTableAfter(c, s, step);
      hide Apply, Enabled, UsesTable;
      var s' := Apply(c, s, step);
      forall t ensures UsesTable(PhaseOf(s', t)) <==> t.proc in s'.tableLock && s'.tableLock[t.proc] == t {
        if t != step.t {
          OneMoves(c, s, step, t);
        }
        assert UsesTable(PhaseOf(s, step.t)) <==> step.t.proc in s.tableLock && s.tableLock[step.t.proc] == step.t;
      }
    }
  }

  lemma CurrentPlain(c: Config, s: State, step: Step)
    requires TableCurrent(s) && Enabled(c, s, step) && !step.Create? && !step.Collect?
    ensures TableCurrent(Apply(c, s, step))
  {
    var s' := Apply(c, s, step);
    TableUnmoved(c, s, step);
    forall t ensures HasRef(PhaseOf(s', t)) ==> IsEntry(s', t, PhaseOf(s', t)) {
      if t != step.t {
        OneMoves(c, s, step, t);
      }
    }
  }

  // The creator is alone in the table, so nobody else is about to create the same entry.
  lemma CurrentCreate(c: Config, s: State, step: Step)
    requires TableGuarded(s) && TableCurrent(s) && Enabled(c, s, step) && step.Create?
    ensures TableCurrent(Apply(c, s, step))
  {
    var (s', me) := (Apply(c, s, step), step.t);
    var key := (me.proc, PhaseOf(s, me).name);
    assert UsesTable(PhaseOf(s, me)) && key !in s.table;
    forall t
      ensures HasRef(PhaseOf(s', t)) ==> IsEntry(s', t, PhaseOf(s', t))
      ensures PhaseOf(s', t).Missed? ==> (t.proc, PhaseOf(s', t).name) !in s'.table
    {
      if t != me {
        OneMoves(c, s, step, t);
        assert UsesTable(PhaseOf(s, t)) ==> t.proc != me.proc;
      }
    }
  }

  lemma CurrentCollect(c: Config, s: State, step: Step)
    requires TableCurrent(s) && Enabled(c, s, step) && step.Collect?
    ensures TableCurrent(Apply(c, s, step))
  {
    var s' := Apply(c, s, step);
    forall t ensures HasRef(PhaseOf(s', t)) ==> IsEntry(s', t, PhaseOf(s', t)) {
      OneMoves(c, s, step, t);
      if HasRef(PhaseOf(s, t)) {
        assert t in s.phases && IsEntry(s, t, PhaseOf(s, t));
      }
    }
  }

  lemma InjectiveStep(c: Config, s: State, step: Step)
    requires TableInjective(s) && SemExclusive(s) && Enabled(c, s, step)
    ensures TableInjective(Apply(c, s, step))
  {
    if step.ReleaseSem? {
      assert Holds(PhaseOf(s, step.t));
    }
  }

  // Whoever holds a semaphore that a thread is about to take would have emptied it.
  lemma ExclusiveAcquire(c: Config, s: State, step: Step)
    requires TableCurrent(s) && TableInjective(s) && SemExclusive(s) && Enabled(c, s, step) && step.AcquireSem?
    ensures SemExclusive(Apply(c, s, step))
  {
    var (s', me) := (Apply(c, s, step), step.t);
    var sem := PhaseOf(s, me).sem;
    assert IsEntry(s, me, PhaseOf(s, me)) && s.value[sem] == 1;
    forall t | Holds(PhaseOf(s', t)) && t != me
      ensures PhaseOf(s', t).sem != sem && PhaseOf(s', t).sem in s'.value && s'.value[PhaseOf(s', t).sem] == 0
    {
      OneMoves(c, s, step, t);
    }
    OthersHeldOnce(c, s, step);
  }

  lemma OthersHeldOnce(c: Config, s: State, step: Step)
    requires SemExclusive(s) && Enabled(c, s, step) && !step.Collect?
    ensures var s' := Apply(c, s, step);
      forall t, u ::
        (Holds(PhaseOf(s', t)) && Holds(PhaseOf(s', u)) && PhaseOf(s', t).sem == PhaseOf(s', u).sem
          && t != step.t && u != step.t) ==> t == u
  {
    var s' := Apply(c, s, step);
    forall t, u | Holds(PhaseOf(s', t)) && Holds(PhaseOf(s', u)) && PhaseOf(s', t).sem == PhaseOf(s', u).sem
        && t != step.t && u != step.t
      ensures t == u
    {
      OneMoves(c, s, step, t);
      OneMoves(c, s, step, u);
    }
  }

  lemma ExclusiveRelease(c: Config, s: State, step: Step)
    requires SemExclusive(s) && Enabled(c, s, step) && step.ReleaseSem?
    ensures SemExclusive(Apply(c, s, step))
  {
    var (s', me) := (Apply(c, s, step), step.t);
    forall t | Holds(PhaseOf(s', t))
      ensures t != me && PhaseOf(s', t).sem in s'.value && s'.value[PhaseOf(s', t).sem] == 0
    {
      OneMoves(c, s, step, t);
      assert Holds(PhaseOf(s, me)) && Holds(PhaseOf(s, t));
    }
    OthersHeldOnce(c, s, step);
  }

  lemma ExclusivePlain(c: Config, s: State, step: Step)
    requires TableCurrent(s) && TableInjective(s) && SemExclusive(s) && Enabled(c, s, step)
    requires !step.AcquireSem? && !step.ReleaseSem?
    ensures SemExclusive(Apply(c, s, step))
  {
    var s' := Apply(c, s, step);
    forall t | Holds(PhaseOf(s', t))
      ensures Holds(PhaseOf(s, t)) && PhaseOf(s, t).sem == PhaseOf(s', t).sem
      ensures PhaseOf(s', t).sem in s'.value && s'.value[PhaseOf(s', t).sem] == 0
    {
      if step.Collect? || t != step.t {
        OneMoves(c, s, step, t);
      }
      assert HasRef(PhaseOf(s, t)) && IsEntry(s, t, PhaseOf(s, t));
    }
  }

  lemma InvStep(c: Config, s: State, step: Step)
    requires Inv(s) && Enabled(c, s, step)
    ensures Inv(Apply(c, s, step))
  {
    hide Apply, Enabled, TableGuarded, TableCurrent, TableInjective, SemExclusive;
    GuardedStep(c, s, step);
    if step.Create? {
      CurrentCreate(c, s, step);
    } else if step.Collect? {
      CurrentCollect(c, s, step);
    } else {
      CurrentPlain(c, s, step);
    }
    InjectiveStep(c, s, step);
    if step.AcquireSem? {
      ExclusiveAcquire(c, s, step);
    } else if step.ReleaseSem? {
      ExclusiveRelease(c, s, step);
    } else {
      ExclusivePlain(c, s, step);
    }
  }

  // The table of one process.
  function TableOf(table: map<(Proc, string), Sem>, proc: Proc): map<string, nat> {
    map n | n in (set k | k in table && k.0 == proc :: k.1) :: table[(proc, n)]
  }

  lemma TableOfAdded(table: map<(Proc, string), Sem>, proc: Proc, name: string, sem: Sem, other: Proc)
    ensures TableOf(table[(proc, name) := sem], other) ==
      if other == proc then TableOf(table, proc)[name := sem] else TableOf(table, other)
  {
    var table' := table[(proc, name) := sem];
    forall n ensures n in TableOf(table', other) <==> n in TableOf(table, other) || (other == proc && n == name) {
      assert n in TableOf(table', other) <==> (other, n) in table';
      assert n in TableOf(table, other) <==> (other, n) in table;
    }
  }

  // The state in which a thread has what it came into the table for.
  function Handed(c: Config, s: State, t: Tid): State
    requires PhaseOf(s, t).InTable?
  {
    var looked := Apply(c, s, LookUp(t));
    if PhaseOf(looked, t).Missed? then Apply(c, looked, Create(t)) else looked
  }

  lemma HandedTable(c: Config, s: State, t: Tid)
    requires PhaseOf(s, t).InTable?
    ensures var s', key := Handed(c, s, t), (t.proc, PhaseOf(s, t).name);
      && PhaseOf(s', t).LeaveTable?
      && s'.table == (if key in s.table then s.table else s.table[key := s.nextSem])
      && PhaseOf(s', t).sem == if key in s.table then s.table[key] else s.nextSem
  {
  }

  /** The steps of a thread inside the table's lock are one `Semaphores.get` on the table of its process, and leave the
      tables of the others alone. */
  lemma TableStepsAreGet(c: Config, s: State, t: Tid)
    requires TableInjective(s) && PhaseOf(s, t).InTable?
    ensures var s' := Handed(c, s, t);
      && PhaseOf(s', t).LeaveTable?
      && Gets(TableOf(s.table, t.proc), PhaseOf(s, t).name, TableOf(s'.table, t.proc), PhaseOf(s', t).sem)
      && forall proc :: proc != t.proc ==> TableOf(s'.table, proc) == TableOf(s.table, proc)
  {
    hide Handed, Apply, Enabled, TableOf, Gets;
    HandedTable(c, s, t);
    LookupIsGet(s.table, t.proc, PhaseOf(s, t).name, s.nextSem);
  }

  // On the tables alone: looking up, and creating what is not there.
  lemma LookupIsGet(table: map<(Proc, string), Sem>, proc: Proc, name: string, next: Sem)
    requires forall k :: k in table ==> table[k] < next
    ensures var key := (proc, name);
            var table', sem := (if key in table then table else table[key := next]),
                               (if key in table then table[key] else next);
      && Gets(TableOf(table, proc), name, TableOf(table', proc), sem)
      && forall other :: other != proc ==> TableOf(table', other) == TableOf(table, other)
  {
    TableBelow(table, proc, next);
    TableOfHas(table, proc, name);
    hide TableOf;
    if (proc, name) !in table {
      TableOfAdded(table, proc, name, next, proc);
      forall other | other != proc ensures TableOf(table[(proc, name) := next], other) == TableOf(table, other) {
        TableOfAdded(table, proc, name, next, other);
      }
    }
  }

  lemma TableOfHas(table: map<(Proc, string), Sem>, proc: Proc, name: string)
    ensures name in TableOf(table, proc) <==> (proc, name) in table
    ensures (proc, name) in table ==> TableOf(table, proc)[name] == table[(proc, name)]
  {
    assert (proc, name) in table ==> (proc, name).1 == name;
  }

  lemma TableBelow(table: map<(Proc, string), Sem>, proc: Proc, next: Sem)
    requires forall k :: k in table ==> table[k] < next
    ensures forall n :: n in TableOf(table, proc) ==> TableOf(table, proc)[n] < next
  {
    forall n | n in TableOf(table, proc) ensures TableOf(table, proc)[n] < next {
      assert (proc, n) in table;
    }
  }

  // Two threads of one process that hold the semaphore of one name are the same thread.
  lemma SameHolder(s: State, t: Tid, u: Tid)
    requires Inv(s) && Holds(PhaseOf(s, t)) && Holds(PhaseOf(s, u))
    requires t.proc == u.proc && PhaseOf(s, t).name == PhaseOf(s, u).name
    ensures t == u
  {
    hide TableGuarded, TableInjective;
    assert IsEntry(s, t, PhaseOf(s, t)) && IsEntry(s, u, PhaseOf(s, u));
  }

  lemma {:induction false} Reachable(c: Config, steps: seq<Step>)
    requires Legal(c, steps)
    ensures Inv(After(c, steps))
  {
    hide Inv, Enabled, Apply;
    if steps == [] {
      StartInv(c);
    } else {
      Reachable(c, steps[..|steps| - 1]);
      InvStep(c, After(c, steps[..|steps| - 1]), steps[|steps| - 1]);
    }
  }

  lemma StartInv(c: Config)
    ensures Inv(START) && FilesHeld(c, START) && NamesKnown(c, START)
  {
  }

  /* ---------- threads of one process ---------- */

  ghost predicate InternalExclusion(s: State) {
    forall t, u ::
      (PhaseOf(s, t).Inside? && PhaseOf(s, u).Inside? && t.proc == u.proc && PhaseOf(s, t).name == PhaseOf(s, u).name)
        ==> t == u
  }

  // All threads of a process that have a semaphore for a name have the same one.
  ghost predicate OneSemaphore(s: State) {
    forall t, u ::
      (HasRef(PhaseOf(s, t)) && HasRef(PhaseOf(s, u)) && t.proc == u.proc && PhaseOf(s, t).name == PhaseOf(s, u).name)
        ==> PhaseOf(s, t).sem == PhaseOf(s, u).sem
  }

  // Within a process no two threads are ever inside lock(name) together, whatever is collected and when.
  lemma ThreadsExcludeEachOther(c: Config, steps: seq<Step>)
    requires Legal(c, steps)
    ensures InternalExclusion(After(c, steps)) && OneSemaphore(After(c, steps))
  {
    Reachable(c, steps);
    hide Legal, After, Inv;
    var s := After(c, steps);
    forall t, u | PhaseOf(s, t).Inside? && PhaseOf(s, u).Inside? && t.proc == u.proc
        && PhaseOf(s, t).name == PhaseOf(s, u).name
      ensures t == u
    {
      SameHolder(s, t, u);
    }
    SharedSemaphore(s);
  }

  lemma SharedSemaphore(s: State)
    requires Inv(s)
    ensures OneSemaphore(s)
  {
    hide TableGuarded, TableInjective, SemExclusive;
    forall t, u | HasRef(PhaseOf(s, t)) && HasRef(PhaseOf(s, u)) && t.proc == u.proc
        && PhaseOf(s, t).name == PhaseOf(s, u).name
      ensures PhaseOf(s, t).sem == PhaseOf(s, u).sem
    {
      assert IsEntry(s, t, PhaseOf(s, t)) && IsEntry(s, u, PhaseOf(s, u));
    }
  }

  /* ---------- threads of many processes ---------- */

  predicate PathsDistinct(c: Config) {
    forall m, n :: m in c.names && n in c.names && c.path(m) == c.path(n) ==> m == n
  }

  predicate HoldsFile(p: Phase) {
    p.Inside? && p.file
  }

  ghost predicate FilesHeld(c: Config, s: State) {
    forall t :: HoldsFile(PhaseOf(s, t)) ==>
      c.path(PhaseOf(s, t).name) in s.fileOwner && s.fileOwner[c.path(PhaseOf(s, t).name)] == t.proc
  }

  ghost predicate NamesKnown(c: Config, s: State) {
    forall t :: PhaseOf(s, t).Idle? || PhaseOf(s, t).name in c.names
  }

  lemma NamesStep(c: Config, s: State, step: Step)
    requires NamesKnown(c, s) && Enabled(c, s, step)
    ensures NamesKnown(c, Apply(c, s, step))
  {
    var s' := Apply(c, s, step);
    forall t ensures PhaseOf(s', t).Idle? || PhaseOf(s', t).name in c.names {
      if step.Collect? || t != step.t {
        OneMoves(c, s, step, t);
      }
    }
  }

  // Only the holder of a lock file's name touches that file.
  lemma FilesStep(c: Config, s: State, step: Step)
    requires Inv(s) && FilesHeld(c, s) && NamesKnown(c, s) && PathsDistinct(c) && Enabled(c, s, step)
    ensures FilesHeld(c, Apply(c, s, step))
  {
    hide Inv;
    var s' := Apply(c, s, step);
    forall t | HoldsFile(PhaseOf(s', t))
      ensures c.path(PhaseOf(s', t).name) in s'.fileOwner && s'.fileOwner[c.path(PhaseOf(s', t).name)] == t.proc
    {
      if step.Collect? || t != step.t {
        OneMoves(c, s, step, t);
        FileUntouched(c, s, step, t);
      }
    }
  }

  lemma FileUntouched(c: Config, s: State, step: Step, t: Tid)
    requires Inv(s) && FilesHeld(c, s) && NamesKnown(c, s) && PathsDistinct(c) && Enabled(c, s, step)
    requires HoldsFile(PhaseOf(s, t)) && (step.Collect? || t != step.t)
    ensures c.path(PhaseOf(s, t).name) in Apply(c, s, step).fileOwner
    ensures Apply(c, s, step).fileOwner[c.path(PhaseOf(s, t).name)] == t.proc
  {
    hide Inv;
    if (step.AcquireFile? || (step.LeaveBody? && PhaseOf(s, step.t).file)) {
      var p, q := PhaseOf(s, t), PhaseOf(s, step.t);
      if c.path(p.name) == c.path(q.name) && t.proc == step.t.proc {
        assert p.name == q.name;
        SameHolder(s, t, step.t);
      }
    }
  }

  lemma {:induction false} FilesReachable(c: Config, steps: seq<Step>)
    requires Legal(c, steps) && PathsDistinct(c)
    ensures FilesHeld(c, After(c, steps)) && NamesKnown(c, After(c, steps))
  {
    hide Inv, FilesHeld, NamesKnown, PathsDistinct, Enabled, Apply;
    if steps == [] {
      StartInv(c);
    } else {
      var before := steps[..|steps| - 1];
      FilesReachable(c, before);
      Reachable(c, before);
      NamesStep(c, After(c, before), steps[|steps| - 1]);
      FilesStep(c, After(c, before), steps[|steps| - 1]);
    }
  }

  // No two threads of any processes are inside lock(name, external=True) for one name.
  ghost predicate ExternalExclusion(s: State) {
    forall t, u ::
      (InExternal(PhaseOf(s, t)) && InExternal(PhaseOf(s, u)) && PhaseOf(s, t).name == PhaseOf(s, u).name) ==> t == u
  }

  predicate InExternal(p: Phase) {
    p.Inside? && p.external
  }

  // Threads in the body of an external lock hold its file, unless process locking is disabled, and no others do.
  ghost predicate FilesUsed(c: Config, s: State) {
    forall t :: PhaseOf(s, t).Inside? ==>
      && (PhaseOf(s, t).file <==> PhaseOf(s, t).external && !c.disabled)
      && (PhaseOf(s, t).external ==> c.disabled || !c.pathless)
  }

  lemma FilesUsedStep(c: Config, s: State, step: Step)
    requires FilesUsed(c, s) && Enabled(c, s, step)
    ensures FilesUsed(c, Apply(c, s, step))
  {
    var s' := Apply(c, s, step);
    forall t | PhaseOf(s', t).Inside?
      ensures PhaseOf(s', t).file <==> PhaseOf(s', t).external && !c.disabled
      ensures PhaseOf(s', t).external ==> c.disabled || !c.pathless
    {
      if step.Collect? || t != step.t {
        OneMoves(c, s, step, t);
      }
    }
  }

  /** In every run the body of an external lock is entered with the lock file and no other body is; if process locking
      is disabled with none; and if there is no lock path not at all. */
  lemma {:induction false} FilesUsedAlways(c: Config, steps: seq<Step>)
    requires Legal(c, steps)
    ensures FilesUsed(c, After(c, steps))
  {
    hide FilesUsed, Enabled, Apply;
    if steps == [] {
      assert FilesUsed(c, START) by { StartUsesNone(c); }
    } else {
      FilesUsedAlways(c, steps[..|steps| - 1]);
      FilesUsedStep(c, After(c, steps[..|steps| - 1]), steps[|steps| - 1]);
    }
  }

  lemma StartUsesNone(c: Config)
    ensures FilesUsed(c, START)
  {
  }

  lemma ProcessesExcludeEachOther(c: Config, steps: seq<Step>)
    requires Legal(c, steps) && PathsDistinct(c)
    ensures forall t, u ::
      var p, q := PhaseOf(After(c, steps), t), PhaseOf(After(c, steps), u);
      HoldsFile(p) && HoldsFile(q) && p.name == q.name ==> t == u
    ensures !c.disabled ==> ExternalExclusion(After(c, steps))
  {
    FilesReachable(c, steps);
    Reachable(c, steps);
    FilesUsedAlways(c, steps);
    hide Legal, After, Inv;
    var s := After(c, steps);
    forall t, u | HoldsFile(PhaseOf(s, t)) && HoldsFile(PhaseOf(s, u)) && PhaseOf(s, t).name == PhaseOf(s, u).name
      ensures t == u
    {
      SameHolder(s, t, u);
    }
  }

  /* ---------- names that share a lock file ---------- */

  lemma Extend(c: Config, steps: seq<Step>, step: Step)
    requires Legal(c, steps) && Enabled(c, After(c, steps), step)
    ensures Legal(c, steps + [step]) && After(c, steps + [step]) == Apply(c, After(c, steps), step)
  {
    hide Apply, Enabled;
    assert (steps + [step])[..|steps|] == steps;
  }

  // A thread goes alone from outside into lock(name, external=True).
  function Entering(c: Config, t: Tid, name: string): seq<Step> {
    [Begin(t, name, true), EnterTable(t), LookUp(t), Create(t), ExitTable(t), AcquireSem(t),
     if c.disabled then EnterPlain(t) else AcquireFile(t)]
  }

  predicate CanEnter(c: Config, s: State, t: Tid, name: string) {
    && name in c.names && PhaseOf(s, t).Idle? && t.proc !in s.tableLock && (t.proc, name) !in s.table
    && (c.disabled || (!c.pathless && (c.path(name) in s.fileOwner ==> s.fileOwner[c.path(name)] == t.proc)))
  }

  function Entered(c: Config, s: State, t: Tid, name: string): State {
    To(s, t, Inside(name, true, s.nextSem, !c.disabled))
      .(table := s.table[(t.proc, name) := s.nextSem], value := s.value[s.nextSem := 0], nextSem := s.nextSem + 1,
        fileOwner := if c.disabled then s.fileOwner else s.fileOwner[c.path(name) := t.proc])
  }

  lemma EnterAlone(c: Config, steps: seq<Step>, t: Tid, name: string)
    requires Legal(c, steps) && CanEnter(c, After(c, steps), t, name)
    ensures Legal(c, steps + Entering(c, t, name))
    ensures After(c, steps + Entering(c, t, name)) == Entered(c, After(c, steps), t, name)
  {
    hide Legal, After;
    var s := After(c, steps);
    var e := Entering(c, t, name);
    var s1 := To(s, t, WantTable(name, true));
    var s2 := To(s, t, InTable(name, true)).(tableLock := s.tableLock[t.proc := t]);
    var s3 := To(s, t, Missed(name, true)).(tableLock := s.tableLock[t.proc := t]);
    Extend(c, steps, e[0]);
    assert After(c, steps + [e[0]]) == s1;
    Extend(c, steps + [e[0]], e[1]);
    assert s1.phases[t := InTable(name, true)] == s2.phases;
    Extend(c, steps + [e[0]] + [e[1]], e[2]);
    assert s2.phases[t := Missed(name, true)] == s3.phases;
    EnterMissed(c, steps + [e[0]] + [e[1]] + [e[2]], s, t, name);
    assert steps + [e[0]] + [e[1]] + [e[2]] + [e[3]] + [e[4]] + [e[5]] + [e[6]] == steps + e;
  }

  lemma EnterMissed(c: Config, steps: seq<Step>, s: State, t: Tid, name: string)
    requires Legal(c, steps) && CanEnter(c, s, t, name)
    requires After(c, steps) == To(s, t, Missed(name, true)).(tableLock := s.tableLock[t.proc := t])
    ensures var e := Entering(c, t, name);
      && Legal(c, steps + [e[3]] + [e[4]] + [e[5]] + [e[6]])
      && After(c, steps + [e[3]] + [e[4]] + [e[5]] + [e[6]]) == Entered(c, s, t, name)
  {
    hide Legal, After, Entered;
    var e := Entering(c, t, name);
    Extend(c, steps, e[3]);
    assert s.phases[t := Missed(name, true)][t := LeaveTable(name, true, s.nextSem)]
        == s.phases[t := LeaveTable(name, true, s.nextSem)];
    EnterLeaving(c, steps + [e[3]], s, t, name);
  }

  lemma EnterLeaving(c: Config, steps: seq<Step>, s: State, t: Tid, name: string)
    requires Legal(c, steps) && CanEnter(c, s, t, name)
    requires var n := s.nextSem;
      After(c, steps) == To(s, t, LeaveTable(name, true, n))
        .(tableLock := s.tableLock[t.proc := t], table := s.table[(t.proc, name) := n], value := s.value[n := 1],
          nextSem := n + 1)
    ensures var e := Entering(c, t, name);
      && Legal(c, steps + [e[4]] + [e[5]] + [e[6]])
      && After(c, steps + [e[4]] + [e[5]] + [e[6]]) == Entered(c, s, t, name)
  {
    hide Legal, After, Entered;
    var e := Entering(c, t, name);
    Extend(c, steps, e[4]);
    assert s.tableLock[t.proc := t] - {t.proc} == s.tableLock;
    assert s.phases[t := LeaveTable(name, true, s.nextSem)][t := WantSem(name, true, s.nextSem)]
        == s.phases[t := WantSem(name, true, s.nextSem)];
    EnterWanting(c, steps + [e[4]], s, t, name);
  }

  lemma EnterWanting(c: Config, steps: seq<Step>, s: State, t: Tid, name: string)
    requires Legal(c, steps) && CanEnter(c, s, t, name)
    requires var n := s.nextSem;
      After(c, steps) == To(s, t, WantSem(name, true, n))
        .(table := s.table[(t.proc, name) := n], value := s.value[n := 1], nextSem := n + 1)
    ensures var e := Entering(c, t, name);
      && Legal(c, steps + [e[5]] + [e[6]])
      && After(c, steps + [e[5]] + [e[6]]) == Entered(c, s, t, name)
  {
    hide Legal, After, Entered;
    var e := Entering(c, t, name);
    var n := s.nextSem;
    Extend(c, steps, e[5]);
    assert s.phases[t := WantSem(name, true, n)][t := HasSem(name, true, n)] == s.phases[t := HasSem(name, true, n)];
    assert s.value[n := 1][n := 0] == s.value[n := 0];
    EnterLast(c, steps + [e[5]], s, t, name);
  }

  lemma EnterLast(c: Config, steps: seq<Step>, s: State, t: Tid, name: string)
    requires Legal(c, steps) && CanEnter(c, s, t, name)
    requires var n := s.nextSem;
      After(c, steps) == To(s, t, HasSem(name, true, n))
        .(table := s.table[(t.proc, name) := n], value := s.value[n := 0], nextSem := n + 1)
    ensures var e := Entering(c, t, name);
      Legal(c, steps + [e[6]]) && After(c, steps + [e[6]]) == Entered(c, s, t, name)
  {
    hide Legal, After;
    var e := Entering(c, t, name);
    Extend(c, steps, e[6]);
    assert s.phases[t := HasSem(name, true, s.nextSem)][t := Inside(name, true, s.nextSem, !c.disabled)]
        == s.phases[t := Inside(name, true, s.nextSem, !c.disabled)];
  }

  /** Two names with one lock file are enough to break the lock: a thread holds m, another thread of its process
      enters and leaves n, which drops the file, and a thread of another process enters m. */
  lemma SharedPathBreaks(c: Config, m: string, n: string) returns (steps: seq<Step>)
    requires UsesFiles(c) && m in c.names && n in c.names && m != n && c.path(m) == c.path(n)
    ensures Legal(c, steps) && !ExternalExclusion(After(c, steps))
  {
    hide Legal, After;
    var a, b, d := Tid(0, 0), Tid(0, 1), Tid(1, 0);
    StartLegal(c);
    EnterAlone(c, [], a, m);
    var first := [] + Entering(c, a, m);
    var s1 := Entered(c, START, a, m);
    EnterAlone(c, first, b, n);
    var second := first + Entering(c, b, n);
    var s2 := Entered(c, s1, b, n);
    Extend(c, second, LeaveBody(b));
    var third := second + [LeaveBody(b)];
    var s3 := Apply(c, s2, LeaveBody(b));
    assert c.path(m) !in s3.fileOwner;
    EnterAlone(c, third, d, m);
    steps := third + Entering(c, d, m);
    var s4 := Entered(c, s3, d, m);
    assert InExternal(PhaseOf(s4, a)) && InExternal(PhaseOf(s4, d));
  }

  lemma StartLegal(c: Config)
    ensures Legal(c, []) && After(c, []) == START
  {
  }

  // With process locking disabled one name is enough.
  lemma DisabledBreaks(c: Config, n: string) returns (steps: seq<Step>)
    requires c.disabled && n in c.names
    ensures Legal(c, steps) && !ExternalExclusion(After(c, steps))
  {
    hide Legal, After;
    var a, d := Tid(0, 0), Tid(1, 0);
    StartLegal(c);
    EnterAlone(c, [], a, n);
    var first := [] + Entering(c, a, n);
    var s1 := Entered(c, START, a, n);
    EnterAlone(c, first, d, n);
    steps := first + Entering(c, d, n);
    var s2 := Entered(c, s1, d, n);
    assert InExternal(PhaseOf(s2, a)) && InExternal(PhaseOf(s2, d));
  }

  // When external locks exclude: not if process locking is disabled, trivially if there is no lock path, so that nobody
  // comes in, and else if no two names in use share a lock file.
  predicate Excludes(c: Config) {
    if c.disabled then c.names == {} else c.pathless || PathsDistinct(c)
  }

  // External locks exclude in every run exactly then.
  lemma ExclusionIffPathsDistinct(c: Config)
    ensures (forall steps :: Legal(c, steps) ==> ExternalExclusion(After(c, steps))) <==> Excludes(c)
  {
    hide Legal, After;
    if Excludes(c) {
      forall steps | Legal(c, steps) ensures ExternalExclusion(After(c, steps)) {
        if !c.disabled && c.pathless {
          FilesUsedAlways(c, steps);
        } else {
          Excluded(c, steps);
        }
      }
    } else {
      hide ExternalExclusion;
      if c.disabled {
        var n :| n in c.names;
        var steps := DisabledBreaks(c, n);
      } else {
        var m, n :| m in c.names && n in c.names && c.path(m) == c.path(n) && m != n;
        var steps := SharedPathBreaks(c, m, n);
      }
    }
  }

  lemma Excluded(c: Config, steps: seq<Step>)
    requires Legal(c, steps) && Excludes(c) && (c.disabled || !c.pathless)
    ensures ExternalExclusion(After(c, steps))
  {
    hide Legal, After, ExternalExclusion;
    if c.disabled {
      FilesReachable(c, steps);
      NobodyInside(c, After(c, steps));
    } else {
      ProcessesExcludeEachOther(c, steps);
    }
  }

  lemma NobodyInside(c: Config, s: State)
    requires NamesKnown(c, s) && c.names == {}
    ensures ExternalExclusion(s)
  {
  }

  // With `_get_lock_path`, that means: no two names that differ in slashes and underscores only.
  lemma LockPathsDistinct(names: set<string>, prefix: string, dir: string, c: Config)
    requires c.names == names && (c.pathless <==> dir == "")
    requires dir != "" ==> forall n :: n in names ==> GetLockPath(n, prefix, dir) == Some(c.path(n))
    ensures (forall steps :: Legal(c, steps) ==> ExternalExclusion(After(c, steps)))
       <==> if c.disabled then names == {}
            else dir == "" || forall m, n :: m in names && n in names && AlikeNames(m, n) ==> m == n
  {
    hide Legal, After, ExternalExclusion, GetLockPath, AlikeNames;
    ExclusionIffPathsDistinct(c);
    if dir != "" {
      forall m, n | m in names && n in names ensures c.path(m) == c.path(n) <==> AlikeNames(m, n) {
        SamePath(m, n, prefix, dir);
      }
    }
  }

  /* ---------- no deadlock ---------- */

  predicate HoldsSem(p: Phase, sem: Sem) {
    Holds(p) && p.sem == sem
  }

  // A semaphore that is used up has a holder.
  ghost predicate SemsBacked(s: State) {
    forall sem :: sem in s.value && s.value[sem] == 0 ==> exists t :: HoldsSem(PhaseOf(s, t), sem)
  }

  // A lock file that is taken has a thread of its process inside.
  ghost predicate FilesBacked(c: Config, s: State) {
    forall path :: path in s.fileOwner ==>
      exists t :: HoldsFile(PhaseOf(s, t)) && t.proc == s.fileOwner[path] && c.path(PhaseOf(s, t).name) == path
  }

  // A semaphore that is used up after a step has just been taken, or was used up before and keeps its holder.
  lemma UsedUp(c: Config, s: State, step: Step, sem: Sem)
    requires Enabled(c, s, step) && sem in Apply(c, s, step).value && Apply(c, s, step).value[sem] == 0
    ensures (step.AcquireSem? && HoldsSem(PhaseOf(Apply(c, s, step), step.t), sem))
            || (sem in s.value && s.value[sem] == 0)
    ensures forall t :: HoldsSem(PhaseOf(s, t), sem) ==> HoldsSem(PhaseOf(Apply(c, s, step), t), sem)
  {
  }

  lemma SemsBackedStep(c: Config, s: State, step: Step)
    requires SemsBacked(s) && Enabled(c, s, step)
    ensures SemsBacked(Apply(c, s, step))
  {
    hide Enabled, Apply, HoldsSem;
    var s' := Apply(c, s, step);
    forall sem | sem in s'.value && s'.value[sem] == 0 ensures exists t :: HoldsSem(PhaseOf(s', t), sem) {
      UsedUp(c, s, step, sem);
    }
  }

  lemma FilesBackedStep(c: Config, s: State, step: Step)
    requires FilesBacked(c, s) && Enabled(c, s, step)
    ensures FilesBacked(c, Apply(c, s, step))
  {
    var s' := Apply(c, s, step);
    forall path | path in s'.fileOwner
      ensures exists t :: HoldsFile(PhaseOf(s', t)) && t.proc == s'.fileOwner[path]
                          && c.path(PhaseOf(s', t).name) == path
    {
      if step.AcquireFile? && path == c.path(PhaseOf(s, step.t).name) {
        assert HoldsFile(PhaseOf(s', step.t));
      } else {
        var t :| HoldsFile(PhaseOf(s, t)) && t.proc == s.fileOwner[path] && c.path(PhaseOf(s, t).name) == path;
        assert step.Collect? || t != step.t;
        OneMoves(c, s, step, t);
      }
    }
  }

  lemma {:induction false} BackedReachable(c: Config, steps: seq<Step>)
    requires Legal(c, steps)
    ensures SemsBacked(After(c, steps)) && FilesBacked(c, After(c, steps))
  {
    hide SemsBacked, FilesBacked, Enabled, Apply;
    if steps == [] {
      StartBacked(c);
    } else {
      var before := steps[..|steps| - 1];
      BackedReachable(c, before);
      SemsBackedStep(c, After(c, before), steps[|steps| - 1]);
      FilesBackedStep(c, After(c, before), steps[|steps| - 1]);
    }
  }

  lemma StartBacked(c: Config)
    ensures SemsBacked(START) && FilesBacked(c, START)
  {
  }

  // A step by which a call that is under way goes on.
  predicate GoesOn(c: Config, s: State, step: Step) {
    Enabled(c, s, step) && !step.Begin? && !step.Collect?
  }

  lemma TableUserGoesOn(c: Config, s: State, t: Tid) returns (step: Step)
    requires UsesTable(PhaseOf(s, t))
    ensures GoesOn(c, s, step)
  {
    var p := PhaseOf(s, t);
    step := if p.InTable? then LookUp(t) else if p.Missed? then Create(t) else ExitTable(t);
  }

  lemma HolderGoesOn(c: Config, s: State, t: Tid) returns (step: Step)
    requires FilesBacked(c, s) && SemExclusive(s) && Holds(PhaseOf(s, t))
    ensures GoesOn(c, s, step)
  {
    var p := PhaseOf(s, t);
    if p.Inside? {
      step := LeaveBody(t);
    } else if p.Leaving? {
      step := ReleaseSem(t);
    } else if !p.external || c.disabled {
      step := EnterPlain(t);
    } else if c.pathless {
      step := NoLockPath(t);
    } else {
      var path := c.path(p.name);
      if path !in s.fileOwner || s.fileOwner[path] == t.proc {
        step := AcquireFile(t);
      } else {
        var u :| HoldsFile(PhaseOf(s, u)) && u.proc == s.fileOwner[path] && c.path(PhaseOf(s, u).name) == path;
        step := LeaveBody(u);
      }
    }
  }

  lemma WaiterGoesOn(c: Config, s: State, t: Tid) returns (step: Step)
    requires Inv(s) && SemsBacked(s) && FilesBacked(c, s) && PhaseOf(s, t).WantSem?
    ensures GoesOn(c, s, step)
  {
    hide TableGuarded, FilesBacked, GoesOn;
    var sem := PhaseOf(s, t).sem;
    assert IsEntry(s, t, PhaseOf(s, t));
    if s.value[sem] > 0 {
      step := AcquireSem(t);
      assert GoesOn(c, s, step) by { AcquireGoesOn(c, s, t); }
    } else {
      var u :| HoldsSem(PhaseOf(s, u), sem);
      step := HolderGoesOn(c, s, u);
    }
  }

  lemma AcquireGoesOn(c: Config, s: State, t: Tid)
    requires PhaseOf(s, t).WantSem? && PhaseOf(s, t).sem in s.value && s.value[PhaseOf(s, t).sem] > 0
    ensures GoesOn(c, s, AcquireSem(t))
  {
  }

  lemma LockHolder(s: State, proc: Proc)
    requires TableGuarded(s) && proc in s.tableLock
    ensures UsesTable(PhaseOf(s, s.tableLock[proc]))
  {
    assert s.tableLock[proc].proc == proc;
  }

  // As long as any call is under way, in any reachable state, some call can go on.
  lemma NeverDeadlocks(c: Config, steps: seq<Step>, t: Tid) returns (step: Step)
    requires Legal(c, steps) && !PhaseOf(After(c, steps), t).Idle?
    ensures GoesOn(c, After(c, steps), step)
  {
    Reachable(c, steps);
    BackedReachable(c, steps);
    hide Legal, After, SemsBacked, FilesBacked, TableCurrent, TableInjective, SemExclusive;
    var s := After(c, steps);
    var p := PhaseOf(s, t);
    if p.WantTable? {
      if t.proc in s.tableLock {
        assert UsesTable(PhaseOf(s, s.tableLock[t.proc])) by { LockHolder(s, t.proc); }
        step := TableUserGoesOn(c, s, s.tableLock[t.proc]);
      } else {
        step := EnterTable(t);
      }
    } else if UsesTable(p) {
      step := TableUserGoesOn(c, s, t);
    } else if p.WantSem? {
      step := WaiterGoesOn(c, s, t);
    } else {
      step := HolderGoesOn(c, s, t);
    }
  }
}
