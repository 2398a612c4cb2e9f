/** Whole runs of a `ConfigOpts` object, and what breaks when a condition on them is dropped. */
module ConfigRuns {
  import opened Wrappers
  import opened ConfigFiles
  import opened Options
  import opened Registry
  import opened Storing
  import opened ConfigEngine
  import opened Mutation

  datatype Answer =
    | Changed(done: bool)
    | Refused(reason: OpError)
    | Value(outcome: Outcome)
    | Mutated(diff: Diff)
    | NotMutated(failure: LoadError)
    | Raised(error: Error)

  // The answer of an uncached lookup. Only where that one runs into the recursion limit may the cache
  // save enough depth to give the answer a deeper lookup would give.
  ghost predicate Correct(reg: Registry, k: Key, depth: nat, o: Outcome) {
    if Hit(o) then Hit(Eval(reg, k, None, depth))
    else exists w: nat :: depth <= w && Eval(reg, k, None, w) == o
  }

  lemma CorrectIsEval(reg: Registry, k: Key, depth: nat, o: Outcome)
    requires Correct(reg, k, depth, o) && !Hit(Eval(reg, k, None, depth))
    ensures o == Eval(reg, k, None, depth)
  {
    if !Hit(o) {
      var w: nat :| depth <= w && Eval(reg, k, None, w) == o;
      EvalMore(reg, k, None, depth, w);
    }
  }

  // Where references have no cycle, a lookup deep enough has one answer, whatever was looked up before.
  lemma OneAnswer(reg: Registry, rank: Node -> nat, k: Key, depth: nat, o: Outcome, depth': nat, o': Outcome)
    requires Acyclic(reg, rank) && rank(Node(k, None)) < depth && rank(Node(k, None)) < depth'
    requires Correct(reg, k, depth, o) && Correct(reg, k, depth', o')
    ensures o == o' && !Hit(o)
  {
    AcyclicEnds(reg, rank, k, None, depth);
    AcyclicEnds(reg, rank, k, None, depth');
    CorrectIsEval(reg, k, depth, o);
    CorrectIsEval(reg, k, depth', o');
    if depth <= depth' {
      EvalMore(reg, k, None, depth, depth');
    } else {
      EvalMore(reg, k, None, depth', depth);
    }
  }

  // What a run is in between operations: the registry and the cache.
  datatype Moment = Moment(reg: Registry, cache: map<Key, Val>)

  ghost predicate Sound(m: Moment) {
    CoherentIn(m.reg, m.cache)
  }

  // One operation takes m to m'.
  ghost predicate Faithful(m: Moment, parsed: bool, op: Op, depth: nat, answer: Answer, m': Moment) {
    match op
    case Ask(k) => m'.reg == m.reg && answer.Value? && Looks(m, k, depth, answer.outcome, m')
    case Reload(files) =>
      && (answer.Changed? ==> m'.cache == map[])
      && (if answer == Changed(true) then files.Parsed? && m'.reg == m.reg.(namespace := Some(files.view))
          else m'.reg == m.reg && (answer == Changed(false) || answer.Raised?))
      && (files.Parsed? && PlainIn(m.reg, Some(files.view)) ==>
           (answer == Changed(true) <==> Accepted(m.reg, files, depth)))
    case Mutate(files) => Mutates(m, files, depth, answer, m')
    case AddGroup(name) => Apply(m.reg, parsed, op) == Ok(m'.reg) && m'.cache == m.cache && answer == Changed(true)
    case _ =>
      match Apply(m.reg, parsed, op)
      case Ok(r) => m' == Moment(r, map[]) && answer.Changed?
      case Err(e) => m' == Moment(Refusal(m.reg, op), m.cache) && answer == Refused(e)
  }

  // A lookup is answered as if nothing were cached if the cache is right and the lookup harmless. One that asks nothing
  // of the cache has that answer anyway, and stores what it comes to look up.
  ghost predicate Looks(m: Moment, k: Key, depth: nat, o: Outcome, m': Moment) {
    && (Sound(m) && Harmless(m.reg, k, None) ==> Correct(m.reg, k, depth, o) && Sound(m'))
    && (k in m.cache ==> o == Ok(m.cache[k]) && m' == m)
    && (k !in m.cache && Uncached(m.reg, k, None) ==>
          o == Eval(m.reg, k, None, depth) && Recorded(m.reg, k, None, depth, m.cache, m'.cache))
  }

  ghost predicate Mutates(m: Moment, files: Parsed, depth: nat, answer: Answer, m': Moment) {
    && (answer.Mutated? || answer.NotMutated?)
    && (answer.NotMutated? ==> m'.reg == m.reg)
    && (answer.Mutated? ==> files.Parsed? && m'.reg == m.reg.(mutableNs := Some(files.view)))
    && (files.Unparsed? ==> m'.cache == map[])
    && (files.Parsed? && PlainIn(m.reg, Some(files.view)) ==>
          && (answer.Mutated? <==> Accepted(m.reg, files, depth))
          && exists looked :: Leaves(m, files.view, depth, looked, m')
               && (answer.Mutated? ==> looked == RequiredKeys(m.reg)))
  }

  // What loading files, with these required options looked up, leaves in an empty cache.
  ghost predicate Leaves(m: Moment, view: View, depth: nat, looked: set<Key>, m': Moment) {
    Wrote(m.reg, Some(view), LoadStores(m.reg, view, depth, looked), map[], m'.cache)
  }

  // A reload that raises something it does not handle; a new group by whose name a cached value's lookup comes; a
  // mutation that looked something up of which another value is in effect; a lookup that does so.
  ghost predicate Breaks(m: Moment, op: Op, depth: nat, answer: Answer, m': Moment) {
    match op
    case Reload(_) => answer.Raised?
    case AddGroup(name) => name !in m.reg.groups && NewGroupBreaks(m.reg, m.cache, name)
    case Mutate(files) =>
      files.Parsed?
      && !(PlainIn(m.reg, Some(files.view)) && forall k :: k in m'.cache ==> Alike(m'.reg, k, Some(files.view)))
    case Ask(k) =>
      k !in m.cache && !Harmless(m.reg, k, None) && !(Uncached(m.reg, k, None) && LookupKeeps(m.reg, k, depth))
    case _ => false
  }

  ghost predicate LookupKeeps(reg: Registry, k: Key, depth: nat) {
    forall n :: n in Nested(reg, k, None, depth) ==> Alike(reg, n, NestedNs(reg, k, None))
  }

  // Where it is known exactly what an operation does to the cache: settings it comes to use are no templates.
  ghost predicate Exact(m: Moment, op: Op) {
    match op
    case AddGroup(_) => true
    case Mutate(files) => files.Parsed? ==> PlainIn(m.reg, Some(files.view))
    case Ask(k) => Uncached(m.reg, k, None)
    case _ => false
  }

  // Nothing else makes a right cache wrong, and these always do where it is known what they do.
  lemma StaysSound(m: Moment, parsed: bool, op: Op, depth: nat, answer: Answer, m': Moment)
    requires Faithful(m, parsed, op, depth, answer, m') && Sound(m)
    ensures !Breaks(m, op, depth, answer, m') ==> Sound(m')
    ensures Exact(m, op) && Breaks(m, op, depth, answer, m') ==> !Sound(m')
  {
    hide Denotes, NewGroupBreaks, Correct, Harmless, Uncached, Recorded, PlainIn, Accepted, LookupKeeps, Mutates, Apply;
    match op
    case AddGroup(name) => GroupSound(m, parsed, name, m');
    case Ask(k) =>
      if k !in m.cache && Uncached(m.reg, k, None) {
        LookupSound(m, k, depth, m');
      }
    case Mutate(files) => MutationSound(m, files, depth, answer, m');
    case Reload(_) =>
    case _ => RefusalSound(m, op);
  }

  lemma GroupSound(m: Moment, parsed: bool, name: string, m': Moment)
    requires Apply(m.reg, parsed, AddGroup(name)) == Ok(m'.reg) && m'.cache == m.cache && Sound(m)
    ensures Sound(m') <==> name in m.reg.groups || !NewGroupBreaks(m.reg, m.cache, name)
  {
    hide Denotes, NewGroupBreaks;
    if name !in m.reg.groups {
      GroupKeepsCache(m.reg, m.cache, name);
    }
  }

  lemma LookupSound(m: Moment, k: Key, depth: nat, m': Moment)
    requires Sound(m) && m'.reg == m.reg && Recorded(m.reg, k, None, depth, m.cache, m'.cache)
    ensures Sound(m') <==> LookupKeeps(m.reg, k, depth)
  {
    hide Recorded, Nested, NestedNs, Alike, Finds;
    RecordedCache(m.reg, k, depth, m.cache, m'.cache);
  }

  lemma MutationSound(m: Moment, files: Parsed, depth: nat, answer: Answer, m': Moment)
    requires Mutates(m, files, depth, answer, m')
    ensures files.Unparsed? ==> Sound(m')
    ensures files.Parsed? && PlainIn(m.reg, Some(files.view)) ==>
      (Sound(m') <==> forall k :: k in m'.cache ==> Alike(m'.reg, k, Some(files.view)))
  {
    hide PlainIn, Wrote, Alike, LoadStores, Accepted, RequiredKeys, Denotes;
    if files.Parsed? && PlainIn(m.reg, Some(files.view)) {
      var looked :| Leaves(m, files.view, depth, looked, m');
      var keys := LoadStores(m.reg, files.view, depth, looked);
      WroteKeys(m.reg, Some(files.view), keys, m'.cache);
      LoadedCache(m.reg, m'.reg, files.view, keys, map[], m'.cache);
    }
  }

  lemma WroteKeys(reg: Registry, ns: Option<View>, keys: set<Key>, cache: map<Key, Val>)
    requires Wrote(reg, ns, keys, map[], cache)
    ensures forall k :: k in cache <==> k in keys
  {
    hide Finds;
  }

  // A refused operation changes at most the list of command-line options.
  lemma RefusalSound(m: Moment, op: Op)
    ensures Sound(m) ==> Sound(Moment(Refusal(m.reg, op), m.cache))
  {
    hide Eval, AddCliOpt;
    forall k, d: nat ensures Eval(Refusal(m.reg, op), k, None, d) == Eval(m.reg, k, None, d) {
      ListUnread(m.reg, Refusal(m.reg, op).cliOpts, k, d);
    }
  }

  // No lookup reads the list of command-line options.
  lemma ListUnread(reg: Registry, os: seq<CliOpt>, k: Key, d: nat)
    ensures Eval(reg.(cliOpts := os), k, None, d) == Eval(reg, k, None, d)
  {
    hide Eval, Next, GetFromNamespace;
    var reg' := reg.(cliOpts := os);
    forall n: Node ensures PlanOf(reg, n.key, n.ns) == PlanOf(reg', n.key, n.ns) {
    }
    SameEval(reg, reg', (n: Node) => true, k, None, d);
  }

  // Whatever came before, an operation that succeeds and clears the cache makes it right.
  lemma ClearsSound(m: Moment, parsed: bool, op: Op, depth: nat, answer: Answer, m': Moment)
    requires Faithful(m, parsed, op, depth, answer, m') && answer.Changed? && !op.AddGroup?
    ensures Sound(m')
  {
    hide Apply;
  }

  // Lookups whose answer does not depend on what a wrong value could do to the cache on the way.
  ghost predicate Answerable(m: Moment, k: Key) {
    k in m.cache || Harmless(m.reg, k, None) || Uncached(m.reg, k, None)
  }

  // Without a mutable namespace these are all lookups, and without templates among the settings as well.
  lemma AllAnswerable(m: Moment, k: Key)
    ensures m.reg.mutableNs.None? ==> Answerable(m, k)
    ensures m.reg.namespace.Some? && PlainSettings(m.reg) ==> Answerable(m, k)
  {
    hide Harmless, Uncached, PlainSettings;
    if m.reg.mutableNs.None? {
      SettledHarmless(m.reg, k, None);
    }
    if m.reg.namespace.Some? && PlainSettings(m.reg) {
      SettingsUncached(m.reg, k);
    }
  }

  lemma AnswerCorrect(m: Moment, k: Key, depth: nat, o: Outcome, m': Moment)
    requires Looks(m, k, depth, o, m') && Sound(m) && Answerable(m, k)
    ensures Correct(m.reg, k, depth, o)
  {
    hide Eval, Harmless, Uncached, Recorded;
    if k in m.cache {
      assert Denotes(m.reg, k, m.cache[k]);
      var d: nat :| Eval(m.reg, k, None, d) == o;
      var w: nat := if d < depth then depth else d;
      EvalMore(m.reg, k, None, d, w);
      assert depth <= w && Eval(m.reg, k, None, w) == o;
    } else if !Harmless(m.reg, k, None) && !Hit(o) {
      assert depth <= depth && Eval(m.reg, k, None, depth) == o;
    }
  }

  ghost predicate FaithfulRun(ms: seq<Moment>, parsed: bool, ops: seq<Op>, depth: nat, answers: seq<Answer>) {
    && |ms| == |answers| + 1 && |answers| == |ops|
    && forall i :: 0 <= i < |ops| ==> Faithful(ms[i], parsed, ops[i], depth, answers[i], ms[i + 1])
  }

  /** From a moment with a right cache, such as the start of a run or after an operation that clears it, every lookup is
      answered as if nothing were cached, until something breaks. */
  lemma {:induction false} RunAnswers(ms: seq<Moment>, parsed: bool, ops: seq<Op>, depth: nat, answers: seq<Answer>,
                                      i: nat, j: nat)
    requires FaithfulRun(ms, parsed, ops, depth, answers) && i <= j < |ops| && Sound(ms[i])
    requires forall n :: i <= n < j ==> !Breaks(ms[n], ops[n], depth, answers[n], ms[n + 1])
    ensures Sound(ms[j])
    ensures ops[j].Ask? && Answerable(ms[j], ops[j].k) ==>
      answers[j].Value? && Correct(ms[j].reg, ops[j].k, depth, answers[j].outcome)
    decreases j
  {
    hide Correct, Breaks, Sound, CoherentIn, Answerable, Looks;
    assert Faithful(ms[j], parsed, ops[j], depth, answers[j], ms[j + 1]);
    if i < j {
      RunAnswers(ms, parsed, ops, depth, answers, i, j - 1);
      assert Faithful(ms[j - 1], parsed, ops[j - 1], depth, answers[j - 1], ms[j - 1 + 1]);
      StaysSound(ms[j - 1], parsed, ops[j - 1], depth, answers[j - 1], ms[j]);
    }
    if ops[j].Ask? && Answerable(ms[j], ops[j].k) {
      AnswerCorrect(ms[j], ops[j].k, depth, answers[j].outcome, ms[j + 1]);
    }
  }

  ghost function Now(c: ConfigOpts): Moment
    reads c
  {
    Moment(c.Reg(), c.cache)
  }

  method Do(c: ConfigOpts, op: Op, depth: nat) returns (answer: Answer)
    requires op.Mutate? ==> c.namespace.Some?
    modifies c
    ensures Faithful(old(Now(c)), c.parsed, op, depth, answer, Now(c))
    ensures c.parsed == old(c.parsed) && (old(c.namespace).Some? ==> c.namespace.Some?)
  {
    hide Apply, Eval, NewGroupBreaks, AddCliOpt, Harmless, Uncached, Recorded, Accepted, Wrote, LoadStores, PlainIn,
      RequiredKeys, Loads, IsDiff, AllKeys;
    match op {
      case Ask(k) => answer := DoAsk(c, k, depth);
      case Reload(files) =>
        var r, _ := c.ReloadConfigFiles(files, depth);
        answer := if r.Ok? then Changed(r.value) else Raised(r.error);
      case Mutate(files) =>
        answer := DoMutate(c, files, depth);
      case AddGroup(name) =>
        c.RegisterGroup(name);
        answer := Changed(true);
      case Register(opt, group, cli) =>
        var r := c.RegisterOpt(opt, group, cli);
        answer := if r.Ok? then Changed(r.value) else Refused(r.error);
      case Unregister(dest, group) =>
        var r := c.UnregisterOpt(dest, group);
        answer := if r.Ok? then Changed(true) else Refused(r.error);
      case _ =>
        var r := c.Change(op);
        answer := if r.Ok? then Changed(true) else Refused(r.error);
    }
    if old(c.namespace).Some? {
      KeepsNamespace(old(Now(c)), c.parsed, op, depth, answer, Now(c));
    }
  }

  // No operation takes the installed namespace away.
  lemma KeepsNamespace(m: Moment, parsed: bool, op: Op, depth: nat, answer: Answer, m': Moment)
    requires Faithful(m, parsed, op, depth, answer, m') && m.reg.namespace.Some?
    ensures m'.reg.namespace.Some?
  {
    hide Looks, Leaves, AddCliOpt, Given, FirstCaught, PlainIn, Accepted;
  }

  method DoAsk(c: ConfigOpts, k: Key, depth: nat) returns (answer: Answer)
    modifies c`cache
    ensures answer.Value? && Looks(old(Now(c)), k, depth, answer.outcome, Now(c))
  {
    hide Eval, Harmless, Uncached, Recorded;
    var r, w := c.Get(k, None, depth);
    assert old(c.Coherent()) && Harmless(c.Reg(), k, None) && !Hit(r) ==> depth <= w && Eval(c.Reg(), k, None, w) == r;
    answer := Value(r);
  }

  method DoMutate(c: ConfigOpts, files: Parsed, depth: nat) returns (answer: Answer)
    requires c.namespace.Some?
    modifies c`mutableNs, c`cache
    ensures Mutates(old(Now(c)), files, depth, answer, Now(c))
  {
    hide PlainIn, Accepted, Wrote, LoadStores, RequiredKeys, Loads, IsDiff, AllKeys, Alike, IsMutable;
    ghost var m := Now(c);
    var r, looked := c.MutateConfigFiles(files, depth);
    answer := if r.Ok? then Mutated(r.value) else NotMutated(r.error);
    assert files.Parsed? && PlainIn(m.reg, Some(files.view)) ==> Leaves(m, files.view, depth, looked, Now(c));
  }

  // Every lookup of a run before anything breaks is answered as if nothing were cached.
  method Run(c: ConfigOpts, ops: seq<Op>, depth: nat) returns (answers: seq<Answer>, ghost ms: seq<Moment>)
    requires c.namespace.Some? || forall op :: op in ops ==> !op.Mutate?
    modifies c
    ensures FaithfulRun(ms, old(c.parsed), ops, depth, answers)
    ensures ms[0] == old(Now(c)) && ms[|ops|] == Now(c)
    ensures old(c.Coherent()) ==>
      forall j :: (0 <= j < |ops| && ops[j].Ask? && Answerable(ms[j], ops[j].k)
                   && forall n :: 0 <= n < j ==> !Breaks(ms[n], ops[n], depth, answers[n], ms[n + 1])) ==>
        answers[j].Value? && Correct(ms[j].reg, ops[j].k, depth, answers[j].outcome)
  {
    hide Faithful, Breaks, Answerable;
    answers, ms := [], [Now(c)];
    for i := 0 to |ops|
      invariant c.parsed == old(c.parsed) && (old(c.namespace).Some? ==> c.namespace.Some?)
      invariant FaithfulRun(ms, c.parsed, ops[..i], depth, answers)
      invariant ms[0] == old(Now(c)) && ms[i] == Now(c)
    {
      ghost var before, answered := ms, answers;
      var answer := Do(c, ops[i], depth);
      answers, ms := answers + [answer], ms + [Now(c)];
      forall n | 0 <= n < i + 1 ensures Faithful(ms[n], c.parsed, ops[..i + 1][n], depth, answers[n], ms[n + 1]) {
        if n < i {
          assert Faithful(before[n], c.parsed, ops[..i][n], depth, answered[n], before[n + 1]);
        }
      }
    }
    assert ops[..|ops|] == ops;
    if old(c.Coherent()) {
      forall j | 0 <= j < |ops| && ops[j].Ask? && Answerable(ms[j], ops[j].k)
                 && (forall n :: 0 <= n < j ==> !Breaks(ms[n], ops[n], depth, answers[n], ms[n + 1]))
        ensures answers[j].Value? && Correct(ms[j].reg, ops[j].k, depth, answers[j].outcome)
      {
        RunAnswers(ms, old(c.parsed), ops, depth, answers, 0, j);
      }
    }
  }
}
