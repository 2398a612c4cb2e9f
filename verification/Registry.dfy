/** What looking an option up means when nothing is cached: `ConfigOpts._do_get`, `_substitute` and
    `StrSubWrapper` of `oslo_config/cfg.py` as functions of the registered options and the namespaces. */
module Registry {
  import opened Wrappers
  import opened ConfigFiles
  import opened Options
  import opened Template
  import Text

  // A registered option, with the values `set_override` and `set_default` gave it.
  datatype Info = Info(opt: Opt, cli: bool, override: Option<Val>, default: Option<Val>)

  type Group = map<string, Info>

  // Conversion by an option's type (None for its ValueError) and `str`.
  datatype Types = Types(convert: (nat, Val) -> Option<Val>, show: Val -> string)

  // Everything a lookup depends on, save the cache, and the command-line options, which none does.
  datatype Registry = Registry(
    types: Types,
    opts: Group,
    groups: map<string, Group>,
    cliOpts: seq<CliOpt>,
    namespace: Option<View>,
    mutableNs: Option<View>,
    validateDefaults: bool)

  datatype Key = Key(group: Option<string>, name: string)

  datatype Error = NoSuchOpt | NoSuchGroup | BadFileValue | BadValue | GroupInTemplate | RecursionLimit

  type Outcome = Result<Val, Error>

  function FindInfo(reg: Registry, k: Key): Result<Info, Error> {
    match k.group
    case None => if k.name in reg.opts then Ok(reg.opts[k.name]) else Err(NoSuchOpt)
    case Some(g) =>
      if g !in reg.groups then Err(NoSuchGroup)
      else if k.name in reg.groups[g] then Ok(reg.groups[g][k.name])
      else Err(NoSuchOpt)
  }

  function RawVal(r: Raw): Val {
    match r
    case One(s) => Str(s)
    case Many(ss) => Lst(seq(|ss|, i requires 0 <= i < |ss| => Str(ss[i])))
  }

  // The namespace a lookup reads: the one asked for, else the mutable one for a mutable option, else the main one.
  function Effective(reg: Registry, opt: Opt, ns: Option<View>): Option<View> {
    var n := if opt.mutable && ns.None? then reg.mutableNs else ns;
    if n.None? then reg.namespace else n
  }

  // How the substituted text becomes the value; a wrapped ValueError is reported as a bad file value.
  datatype Finish = AsIs | Converted(opt: Opt, wrapped: bool)

  // Where a lookup ends up: at once, or at a value that still has to be substituted, in the context
  // of a group and a namespace.
  datatype Plan =
    | Done(outcome: Outcome)
    | Substitute(value: Val, group: Option<string>, ns: Option<View>, finish: Finish)

  // Override, then the namespace, then the set default, then the declared default.
  function PlanOf(reg: Registry, k: Key, ns: Option<View>): Plan {
    if k.group.None? && k.name in reg.groups then Done(Ok(GroupAttr(k.name)))
    else
      match FindInfo(reg, k)
      case Err(e) => Done(Err(e))
      case Ok(info) =>
        if info.override.Some? then Substitute(info.override.value, None, None, AsIs)
        else
          var n := Effective(reg, info.opt, ns);
          var raw := if n.Some? then GetFromNamespace(info.opt, n.value, k.group) else None;
          if raw.Some? then Substitute(RawVal(raw.value), k.group, n, Converted(info.opt, true))
          else if info.default.Some? then Substitute(info.default.value, None, None, AsIs)
          else if info.opt.default != NoneVal then
            Substitute(info.opt.default, k.group, n, Converted(info.opt, reg.validateDefaults))
          else Done(Ok(NoneVal))
  }

  function ConvertAll(types: Types, typ: nat, vs: seq<Val>): Option<seq<Val>> {
    if vs == [] then Some([])
    else
      var head := types.convert(typ, vs[0]);
      if head.None? then None
      else
        var rest := ConvertAll(types, typ, vs[1..]);
        if rest.None? then None else Some([head.value] + rest.value)
  }

  function Convert(types: Types, opt: Opt, v: Val): Outcome {
    if opt.multi && v.Lst? then
      var vs := ConvertAll(types, opt.typ, v.items);
      if vs.Some? then Ok(Lst(vs.value)) else Err(BadValue)
    else
      var c := types.convert(opt.typ, v);
      if c.Some? then Ok(c.value) else Err(BadValue)
  }

  function Finished(types: Types, f: Finish, o: Outcome): Outcome {
    if f.AsIs? then o
    else
      var c := if o.Err? then o else Convert(types, f.opt, o.value);
      if f.wrapped && c.Err? && (c.error == BadValue || c.error == BadFileValue) then Err(BadFileValue) else c
  }

  // `key.split(".", 1)` of a reference: the first place to look it up.
  function FirstKey(ref: string, group: Option<string>): Key {
    var dot := Text.Find(ref, '.');
    if dot < 0 then Key(group, ref) else Key(Some(ref[..dot]), ref[dot + 1..])
  }

  // A lookup without a cache, to a depth of d nested lookups.
  function Eval(reg: Registry, k: Key, ns: Option<View>, d: nat): Outcome
    decreases d, 0
  {
    if d == 0 then Err(RecursionLimit)
    else
      match PlanOf(reg, k, ns)
      case Done(o) => o
      case Substitute(v, g, n, f) => Finished(reg.types, f, Subst(reg, v, g, n, d - 1))
  }

  function Subst(reg: Registry, v: Val, group: Option<string>, ns: Option<View>, d: nat): Outcome
    decreases d, 3, v
  {
    match v
    case Lst(items) =>
      var r := SubstAll(reg, items, group, ns, d);
      if r.Ok? then Ok(Lst(r.value)) else Err(r.error)
    case Str(s) =>
      var r := SubstTokens(reg, TokensOf(s), group, ns, d);
      if r.Ok? then Ok(Str(r.value)) else Err(r.error)
    case _ => Ok(v)
  }

  function SubstAll(reg: Registry, vs: seq<Val>, group: Option<string>, ns: Option<View>, d: nat): Result<seq<Val>,
                    Error>
    decreases d, 3, vs
  {
    if vs == [] then Ok([])
    else
      var head := Subst(reg, vs[0], group, ns, d);
      if head.Err? then Err(head.error)
      else
        var rest := SubstAll(reg, vs[1..], group, ns, d);
        if rest.Err? then Err(rest.error) else Ok([head.value] + rest.value)
  }

  function SubstTokens(reg: Registry, ts: seq<Token>, group: Option<string>, ns: Option<View>, d: nat): Result<string,
                       Error>
    decreases d, 2, |ts|
  {
    if ts == [] then Ok("")
    else
      var head := if ts[0].Literal? then Ok([ts[0].c]) else Shown(reg.types, Resolve(reg, ts[0].name, group, ns, d));
      if head.Err? then Err(head.error)
      else
        var rest := SubstTokens(reg, ts[1..], group, ns, d);
        if rest.Err? then Err(rest.error) else Ok(head.value + rest.value)
  }

  function Shown(types: Types, o: Outcome): Result<string, Error> {
    if o.Err? then Err(o.error) else Ok(types.show(o.value))
  }

  // `StrSubWrapper.__getitem__`: the group first, the whole name in DEFAULT when there is no such option.
  function Resolve(reg: Registry, ref: string, group: Option<string>, ns: Option<View>, d: nat): Outcome
    decreases d, 1
  {
    var first := Eval(reg, FirstKey(ref, group), ns, d);
    var r := if first == Err(NoSuchOpt) then Eval(reg, Key(None, ref), ns, d) else first;
    if r.Ok? && r.value.GroupAttr? then Err(GroupInTemplate) else r
  }

  /* ---------- more depth never changes an answer ---------- */

  predicate Hit<T>(o: Result<T, Error>) {
    o == Err(RecursionLimit)
  }

  lemma {:induction false} EvalMore(reg: Registry, k: Key, ns: Option<View>, d: nat, e: nat)
    requires d <= e
    ensures !Hit(Eval(reg, k, ns, d)) ==> Eval(reg, k, ns, e) == Eval(reg, k, ns, d)
    decreases d, 0
  {
    hide PlanOf, Convert;
    if d > 0 {
      match PlanOf(reg, k, ns)
      case Done(_) =>
      case Substitute(v, g, n, f) => SubstMore(reg, v, g, n, d - 1, e - 1);
    }
  }

  lemma {:induction false} SubstMore(reg: Registry, v: Val, group: Option<string>, ns: Option<View>, d: nat, e: nat)
    requires d <= e
    ensures !Hit(Subst(reg, v, group, ns, d)) ==> Subst(reg, v, group, ns, e) == Subst(reg, v, group, ns, d)
    decreases d, 3, v
  {
    match v
    case Lst(items) => SubstAllMore(reg, items, group, ns, d, e);
    case Str(s) => SubstTokensMore(reg, TokensOf(s), group, ns, d, e);
    case _ =>
  }

  lemma {:induction false} SubstAllMore(reg: Registry, vs: seq<Val>, group: Option<string>, ns: Option<View>, d: nat,
                                        e: nat)
    requires d <= e
    ensures !Hit(SubstAll(reg, vs, group, ns, d)) ==> SubstAll(reg, vs, group, ns, e) == SubstAll(reg, vs, group, ns, d)
    decreases d, 3, vs
  {
    if vs != [] {
      SubstMore(reg, vs[0], group, ns, d, e);
      SubstAllMore(reg, vs[1..], group, ns, d, e);
    }
  }

  lemma {:induction false} SubstTokensMore(reg: Registry, ts: seq<Token>, group: Option<string>, ns: Option<View>,
                                           d: nat, e: nat)
    requires d <= e
    ensures !Hit(SubstTokens(reg, ts, group, ns, d)) ==>
              SubstTokens(reg, ts, group, ns, e) == SubstTokens(reg, ts, group, ns, d)
    decreases d, 2, |ts|
  {
    if ts != [] {
      if ts[0].Reference? {
        ResolveMore(reg, ts[0].name, group, ns, d, e);
      }
      SubstTokensMore(reg, ts[1..], group, ns, d, e);
    }
  }

  lemma {:induction false} ResolveMore(reg: Registry, ref: string, group: Option<string>, ns: Option<View>, d: nat,
                                       e: nat)
    requires d <= e
    ensures !Hit(Resolve(reg, ref, group, ns, d)) ==> Resolve(reg, ref, group, ns, e) == Resolve(reg, ref, group, ns, d)
    decreases d, 1
  {
    EvalMore(reg, FirstKey(ref, group), ns, d, e);
    EvalMore(reg, Key(None, ref), ns, d, e);
  }

  /* ---------- text without references ---------- */

  lemma {:induction false} LiteralTokens(reg: Registry, s: string, group: Option<string>, ns: Option<View>, d: nat)
    ensures SubstTokens(reg, Literals(s), group, ns, d) == Ok(s)
  {
    if s != "" {
      LiteralTokens(reg, s[1..], group, ns, d);
      assert Literals(s)[1..] == Literals(s[1..]) && s == [s[0]] + s[1..];
    }
  }

  // Text without dollar signs is substituted by itself.
  lemma PlainText(reg: Registry, s: string, group: Option<string>, ns: Option<View>, d: nat)
    requires Plain(s)
    ensures Subst(reg, Str(s), group, ns, d) == Ok(Str(s))
  {
    hide SubstTokens;
    TokensPlain(s);
    LiteralTokens(reg, s, group, ns, d);
  }

  /* ---------- acyclic references ---------- */

  // A lookup in progress: an option and the namespace it was asked for.
  datatype Node = Node(key: Key, ns: Option<View>)

  function ReferencesIn(ts: seq<Token>): set<string> {
    set t | t in ts && t.Reference? :: t.name
  }

  function References(v: Val): set<string> {
    match v
    case Str(s) => ReferencesIn(TokensOf(s))
    case Lst(items) => set i, r | 0 <= i < |items| && r in References(items[i]) :: r
    case _ => {}
  }

  // The lookups that looking up a node may start next.
  function Next(reg: Registry, n: Node): set<Node> {
    match PlanOf(reg, n.key, n.ns)
    case Done(_) => {}
    case Substitute(v, g, ns, _) =>
      (set r | r in References(v) :: Node(FirstKey(r, g), ns)) + (set r | r in References(v) :: Node(Key(None, r), ns))
  }

  // A namespace that a lookup without an explicit one can come to read.
  predicate InUse(reg: Registry, ns: Option<View>) {
    ns.None? || ns == reg.namespace || ns == reg.mutableNs
  }

  lemma NextInUse(reg: Registry, k: Key, ns: Option<View>)
    requires InUse(reg, ns)
    ensures PlanOf(reg, k, ns).Substitute? ==> InUse(reg, PlanOf(reg, k, ns).ns)
  {
  }

  // References among the values in use lead downwards only.
  ghost predicate Acyclic(reg: Registry, rank: Node -> nat) {
    forall n: Node, m :: InUse(reg, n.ns) && m in Next(reg, n) ==> rank(m) < rank(n)
  }

  // Where the references have no cycle every lookup comes to an end, at a depth its rank bounds.
  lemma {:induction false} AcyclicEnds(reg: Registry, rank: Node -> nat, k: Key, ns: Option<View>, d: nat)
    requires Acyclic(reg, rank) && InUse(reg, ns) && rank(Node(k, ns)) < d
    ensures !Hit(Eval(reg, k, ns, d))
    decreases d, 0
  {
    hide PlanOf, Next, References, FirstKey, Finished;
    PlanNoHit(reg, k, ns);
    NextInUse(reg, k, ns);
    match PlanOf(reg, k, ns)
    case Done(_) =>
    case Substitute(v, g, n, f) =>
      NextNodes(reg, k, ns);
      forall r | r in References(v)
        ensures rank(Node(FirstKey(r, g), n)) < d - 1 && rank(Node(Key(None, r), n)) < d - 1
      {
        assert Node(FirstKey(r, g), n) in Next(reg, Node(k, ns)) && Node(Key(None, r), n) in Next(reg, Node(k, ns));
      }
      AcyclicSubst(reg, rank, v, g, n, d - 1);
      NoHit(reg.types, f, Subst(reg, v, g, n, d - 1));
  }

  lemma PlanNoHit(reg: Registry, k: Key, ns: Option<View>)
    ensures PlanOf(reg, k, ns).Done? ==> !Hit(PlanOf(reg, k, ns).outcome)
  {
  }

  lemma NextNodes(reg: Registry, k: Key, ns: Option<View>)
    ensures var p := PlanOf(reg, k, ns);
            p.Substitute? ==>
              forall r :: r in References(p.value) ==>
                && Node(FirstKey(r, p.group), p.ns) in Next(reg, Node(k, ns))
                && Node(Key(None, r), p.ns) in Next(reg, Node(k, ns))
  {
    hide PlanOf, References, FirstKey;
  }

  lemma NoHit(types: Types, f: Finish, o: Outcome)
    requires !Hit(o)
    ensures !Hit(Finished(types, f, o))
  {
  }

  lemma {:induction false} AcyclicSubst(reg: Registry, rank: Node -> nat, v: Val, group: Option<string>,
                                        ns: Option<View>, d: nat)
    requires Acyclic(reg, rank) && InUse(reg, ns)
    requires forall r :: r in References(v) ==>
               rank(Node(FirstKey(r, group), ns)) < d && rank(Node(Key(None, r), ns)) < d
    ensures !Hit(Subst(reg, v, group, ns, d))
    decreases d, 3, v
  {
    match v
    case Lst(items) => AcyclicSubstAll(reg, rank, items, group, ns, d);
    case Str(s) => AcyclicTokens(reg, rank, TokensOf(s), group, ns, d);
    case _ =>
  }

  lemma {:induction false} AcyclicSubstAll(reg: Registry, rank: Node -> nat, vs: seq<Val>, group: Option<string>,
                                           ns: Option<View>, d: nat)
    requires Acyclic(reg, rank) && InUse(reg, ns)
    requires forall i, r :: 0 <= i < |vs| && r in References(vs[i]) ==>
               rank(Node(FirstKey(r, group), ns)) < d && rank(Node(Key(None, r), ns)) < d
    ensures !Hit(SubstAll(reg, vs, group, ns, d))
    decreases d, 3, vs
  {
    if vs != [] {
      AcyclicSubst(reg, rank, vs[0], group, ns, d);
      AcyclicSubstAll(reg, rank, vs[1..], group, ns, d);
    }
  }

  lemma {:induction false} AcyclicTokens(reg: Registry, rank: Node -> nat, ts: seq<Token>, group: Option<string>,
                                         ns: Option<View>, d: nat)
    requires Acyclic(reg, rank) && InUse(reg, ns)
    requires forall r :: r in ReferencesIn(ts) ==>
               rank(Node(FirstKey(r, group), ns)) < d && rank(Node(Key(None, r), ns)) < d
    ensures !Hit(SubstTokens(reg, ts, group, ns, d))
    decreases d, 2, |ts|
  {
    if ts != [] {
      if ts[0].Reference? {
        assert ts[0].name in ReferencesIn(ts);
        AcyclicEnds(reg, rank, FirstKey(ts[0].name, group), ns, d);
        AcyclicEnds(reg, rank, Key(None, ts[0].name), ns, d);
      }
      AcyclicTokens(reg, rank, ts[1..], group, ns, d);
    }
  }

  /* ---------- registries that agree where a lookup goes ---------- */

  // Two registries plan the same for every good node, and good nodes lead to good nodes only.
  ghost predicate AgreeOn(reg: Registry, reg': Registry, good: Node -> bool) {
    && reg.types == reg'.types
    && forall n :: good(n) ==>
         && PlanOf(reg, n.key, n.ns) == PlanOf(reg', n.key, n.ns)
         && forall m :: m in Next(reg, n) ==> good(m)
  }

  predicate AllGood(good: Node -> bool, refs: set<string>, group: Option<string>, ns: Option<View>) {
    forall r :: r in refs ==> good(Node(FirstKey(r, group), ns)) && good(Node(Key(None, r), ns))
  }

  lemma {:induction false} SameEval(reg: Registry, reg': Registry, good: Node -> bool, k: Key, ns: Option<View>, d: nat)
    requires AgreeOn(reg, reg', good) && good(Node(k, ns))
    ensures Eval(reg, k, ns, d) == Eval(reg', k, ns, d)
    decreases d, 0
  {
    hide PlanOf, Next, References, FirstKey, Finished;
    if d > 0 {
      match PlanOf(reg, k, ns)
      case Done(_) =>
      case Substitute(v, g, n, f) =>
        NextNodes(reg, k, ns);
        assert AllGood(good, References(v), g, n);
        SameSubst(reg, reg', good, v, g, n, d - 1);
    }
  }

  lemma {:induction false} SameSubst(reg: Registry, reg': Registry, good: Node -> bool, v: Val, group: Option<string>,
                                     ns: Option<View>, d: nat)
    requires AgreeOn(reg, reg', good) && AllGood(good, References(v), group, ns)
    ensures Subst(reg, v, group, ns, d) == Subst(reg', v, group, ns, d)
    decreases d, 3, v
  {
    hide AgreeOn, FirstKey;
    match v
    case Lst(items) =>
      assert forall i :: 0 <= i < |items| ==> References(items[i]) <= References(v);
      SameSubstAll(reg, reg', good, items, group, ns, d);
    case Str(s) => SameTokens(reg, reg', good, TokensOf(s), group, ns, d);
    case _ =>
  }

  lemma {:induction false} SameSubstAll(reg: Registry, reg': Registry, good: Node -> bool, vs: seq<Val>,
                                        group: Option<string>, ns: Option<View>, d: nat)
    requires AgreeOn(reg, reg', good)
    requires forall i :: 0 <= i < |vs| ==> AllGood(good, References(vs[i]), group, ns)
    ensures SubstAll(reg, vs, group, ns, d) == SubstAll(reg', vs, group, ns, d)
    decreases d, 3, vs
  {
    hide AgreeOn, AllGood, References;
    if vs != [] {
      SameSubst(reg, reg', good, vs[0], group, ns, d);
      SameSubstAll(reg, reg', good, vs[1..], group, ns, d);
    }
  }

  lemma {:induction false} SameTokens(reg: Registry, reg': Registry, good: Node -> bool, ts: seq<Token>,
                                      group: Option<string>, ns: Option<View>, d: nat)
    requires AgreeOn(reg, reg', good) && AllGood(good, ReferencesIn(ts), group, ns)
    ensures SubstTokens(reg, ts, group, ns, d) == SubstTokens(reg', ts, group, ns, d)
    decreases d, 2, |ts|
  {
    hide AgreeOn, FirstKey;
    if ts != [] {
      ReferencesListed(ts);
      if ts[0].Reference? {
        SameResolve(reg, reg', good, ts[0].name, group, ns, d);
      }
      SameTokens(reg, reg', good, ts[1..], group, ns, d);
      TypesAgree(reg, reg', good);
    }
  }

  lemma TypesAgree(reg: Registry, reg': Registry, good: Node -> bool)
    requires AgreeOn(reg, reg', good)
    ensures reg.types == reg'.types
  {
  }

  lemma ReferencesListed(ts: seq<Token>)
    ensures forall i :: 0 <= i < |ts| && ts[i].Reference? ==> ts[i].name in ReferencesIn(ts)
    ensures ts != [] ==> ReferencesIn(ts[1..]) <= ReferencesIn(ts)
  {
  }

  lemma {:induction false} SameResolve(reg: Registry, reg': Registry, good: Node -> bool, ref: string,
                                       group: Option<string>, ns: Option<View>, d: nat)
    requires AgreeOn(reg, reg', good) && good(Node(FirstKey(ref, group), ns)) && good(Node(Key(None, ref), ns))
    ensures Resolve(reg, ref, group, ns, d) == Resolve(reg', ref, group, ns, d)
    decreases d, 1
  {
    hide AgreeOn, FirstKey;
    SameEval(reg, reg', good, FirstKey(ref, group), ns, d);
    SameEval(reg, reg', good, Key(None, ref), ns, d);
  }
}
