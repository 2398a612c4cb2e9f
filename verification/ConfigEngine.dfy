/** `ConfigOpts` of `oslo_config/cfg.py` with its memo cache: lookups, the operations that change what
    they depend on, reloading and mutation. */
module ConfigEngine {
  import opened Wrappers
  import opened ConfigFiles
  import opened Options
  import opened Template
  import opened Registry
  import opened Visiting
  import opened Storing
  import opened Sorting

  function Max(a: nat, b: nat): nat {
    if a < b then b else a
  }

  // v is what an uncached lookup finds, given enough depth.
  ghost predicate Denotes(reg: Registry, k: Key, v: Val) {
    Finds(reg, k, None, v)
  }

  // Every cached value is what an uncached lookup finds.
  ghost predicate CoherentIn(reg: Registry, cache: map<Key, Val>) {
    forall k :: k in cache ==> Denotes(reg, k, cache[k])
  }

  // An answer found at one depth rules out every other value.
  lemma SettledOutcome(reg: Registry, k: Key, d: nat, o: Outcome, v: Val)
    requires Eval(reg, k, None, d) == o && !Hit(o) && o != Ok(v)
    ensures !Denotes(reg, k, v)
  {
    hide Eval;
    forall e: nat ensures Eval(reg, k, None, e) != Ok(v) {
      if e <= d {
        EvalMore(reg, k, None, e, d);
      } else {
        EvalMore(reg, k, None, d, e);
      }
    }
  }

  // r is an uncached answer at some depth w >= d, or both run into the recursion limit at depth d.
  ghost predicate Matches<T>(r: Result<T, Error>, atD: Result<T, Error>, atW: Result<T, Error>, d: nat, w: nat) {
    if Hit(r) then Hit(atD) else d <= w && atW == r
  }

  // What parsing the arguments and files once more gives: nothing, or a namespace and the files that were not found.
  datatype Parsed = Unparsed | Parsed(view: View, missing: seq<string>)

  /* ---------- what the operations do to a registry ---------- */

  datatype Op =
    | Register(opt: Opt, group: Option<string>, cli: bool)
    | Unregister(dest: string, group: Option<string>)
    | SetOverride(k: Key, value: Val, enforceType: bool)
    | SetDefault(k: Key, value: Val, enforceType: bool)
    | ClearOverride(k: Key)
    | ClearDefault(k: Key)
    | AddGroup(name: string)
    | Reload(files: Parsed)
    | Mutate(files: Parsed)
    | Ask(k: Key)

  datatype OpError = NoOption | NoGroup | DuplicateOpt | ReservedName | ArgsAlreadyParsed | WrongType | NotInGroup

  function ToOpError(e: Error): OpError {
    if e == NoSuchGroup then NoGroup else NoOption
  }

  const RESERVED_NAMES: set<string> := {"project", "prog", "version", "usage", "default_config_files"}

  function GroupOf(reg: Registry, group: Option<string>): Group {
    if group.None? then reg.opts else if group.value in reg.groups then reg.groups[group.value] else map[]
  }

  function PutGroup(reg: Registry, group: Option<string>, g: Group): Registry {
    if group.None? then reg.(opts := g) else reg.(groups := reg.groups[group.value := g])
  }

  function PutInfo(reg: Registry, k: Key, info: Info): Registry {
    PutGroup(reg, k.group, GroupOf(reg, k.group)[k.name := info])
  }

  /* ---------- the list of command-line options ---------- */

  function AddCliOpt(os: seq<CliOpt>, o: CliOpt): seq<CliOpt> {
    if o in os then os else if o.opt.positional then os + [o] else [o] + os
  }

  // An entry at which `unregister_opt` stops: an entry of the group, and for DEFAULT one of any group. An entry of
  // DEFAULT has no group to compare with.
  predicate Catches(o: CliOpt, dest: string, group: Option<string>) {
    o.opt.dest == dest && (group.None? || o.group.None? || o.group == group)
  }

  function FirstCaught(os: seq<CliOpt>, dest: string, group: Option<string>): (i: nat)
    ensures i <= |os| && (i < |os| ==> Catches(os[i], dest, group))
    ensures forall j :: 0 <= j < i ==> !Catches(os[j], dest, group)
  {
    if os == [] || Catches(os[0], dest, group) then 0 else 1 + FirstCaught(os[1..], dest, group)
  }

  // An option is put into its group, unless it is there already, and its entry into the list.
  function Registered(reg: Registry, opt: Opt, group: Option<string>, cli: bool): Result<Registry, OpError> {
    var g := GroupOf(reg, group);
    if group.None? && opt.name in RESERVED_NAMES then Err(ReservedName)
    else if opt.dest in g && g[opt.dest].opt != opt then Err(DuplicateOpt)
    else
      var os := if cli then AddCliOpt(reg.cliOpts, CliOpt(opt, group)) else reg.cliOpts;
      var g' := if opt.dest in g then g else g[opt.dest := Info(opt, cli, None, None)];
      Ok(PutGroup(reg, group, g').(cliOpts := os))
  }

  // An option is taken out of its group, and its entry out of the list.
  function Unregistered(reg: Registry, dest: string, group: Option<string>): Result<Registry, OpError> {
    var i, rest := FirstCaught(reg.cliOpts, dest, group), PutGroup(reg, group, GroupOf(reg, group) - {dest});
    if i == |reg.cliOpts| then Ok(rest)
    else if group.Some? && reg.cliOpts[i].group.None? then Err(NotInGroup)
    else Ok(rest.(cliOpts := reg.cliOpts[..i] + reg.cliOpts[i + 1..]))
  }

  // A refused registration of a command-line option leaves its entry in the list.
  function Refusal(reg: Registry, op: Op): Registry {
    if op.Register? && op.cli && !(op.group.None? && op.opt.name in RESERVED_NAMES)
    then reg.(cliOpts := AddCliOpt(reg.cliOpts, CliOpt(op.opt, op.group))) else reg
  }

  // A value given by `set_override` or `set_default`, converted when asked to; None is never converted.
  function Given(types: Types, opt: Opt, v: Val, enforceType: bool): Result<Val, OpError> {
    if !enforceType || v == NoneVal then Ok(v)
    else
      var c := Convert(types, opt, v);
      if c.Ok? then Ok(c.value) else Err(WrongType)
  }

  // The registry after an operation that succeeds, or why it is refused.
  function Apply(reg: Registry, parsed: bool, op: Op): Result<Registry, OpError>
    requires !op.Reload? && !op.Mutate? && !op.Ask?
  {
    match op
    case Register(opt, group, cli) => Registered(reg, opt, group, cli)
    case Unregister(dest, group) =>
      if parsed then Err(ArgsAlreadyParsed)
      else if group.Some? && group.value !in reg.groups then Err(NoGroup)
      else Unregistered(reg, dest, group)
    case SetOverride(k, v, enforce) =>
      var found := FindInfo(reg, k);
      if found.Err? then Err(ToOpError(found.error))
      else
        var given := Given(reg.types, found.value.opt, v, enforce);
        if given.Err? then Err(given.error) else Ok(PutInfo(reg, k, found.value.(override := Some(given.value))))
    case SetDefault(k, v, enforce) =>
      var found := FindInfo(reg, k);
      if found.Err? then Err(ToOpError(found.error))
      else
        var given := Given(reg.types, found.value.opt, v, enforce);
        if given.Err? then Err(given.error) else Ok(PutInfo(reg, k, found.value.(default := Some(given.value))))
    case ClearOverride(k) =>
      var found := FindInfo(reg, k);
      if found.Err? then Err(ToOpError(found.error)) else Ok(PutInfo(reg, k, found.value.(override := None)))
    case ClearDefault(k) =>
      var found := FindInfo(reg, k);
      if found.Err? then Err(ToOpError(found.error)) else Ok(PutInfo(reg, k, found.value.(default := None)))
    case AddGroup(name) => Ok(if name in reg.groups then reg else WithGroup(reg, name))
  }

  function AllKeys(reg: Registry): set<Key> {
    (set n | n in reg.opts :: Key(None, n)) + (set g, n | g in reg.groups && n in reg.groups[g] :: Key(Some(g), n))
  }

  lemma AllKeysFound(reg: Registry, k: Key)
    ensures k in AllKeys(reg) <==> FindInfo(reg, k).Ok?
  {
    if FindInfo(reg, k).Ok? {
      match k.group
      case None => assert k == Key(None, k.name);
      case Some(g) => assert k == Key(Some(g), k.name);
    }
  }

  function InfoOf(reg: Registry, k: Key): Info
    requires k in AllKeys(reg)
  {
    AllKeysFound(reg, k);
    FindInfo(reg, k).value
  }

  /* ---------- loading files ---------- */

  function ByName(os: seq<CliOpt>): seq<CliOpt> {
    Sorted(os, (o: CliOpt) => o.opt.name)
  }

  datatype Validity = Valid | Exits(o: CliOpt) | Raises(error: Error)

  // The value a view has for a command-line option can be substituted and converted.
  function Validated(reg: Registry, view: View, depth: nat, o: CliOpt): Validity {
    var raw := GetFromNamespace(o.opt, view, o.group);
    if raw.None? then Valid
    else
      var v := Subst(reg, RawVal(raw.value), o.group, Some(view), depth);
      if v.Err? then Raises(v.error) else if Convert(reg.types, o.opt, v.value).Err? then Exits(o) else Valid
  }

  // The first fault among some options.
  function ValidatedAll(reg: Registry, view: View, depth: nat, os: seq<CliOpt>): Validity {
    if os == [] then Valid
    else
      var before := ValidatedAll(reg, view, depth, os[..|os| - 1]);
      if !before.Valid? then before else Validated(reg, view, depth, os[|os| - 1])
  }

  ghost predicate AllValid(reg: Registry, view: View, depth: nat) {
    forall o :: o in reg.cliOpts ==> Validated(reg, view, depth, o).Valid?
  }

  function ValidationStoresOf(reg: Registry, view: View, depth: nat, o: CliOpt): set<Key> {
    var raw := GetFromNamespace(o.opt, view, o.group);
    if raw.None? then {} else StoredIn(reg, RawVal(raw.value), o.group, Some(view), depth)
  }

  // The options that validation looks up, to its end or the first fault.
  function ValidationStores(reg: Registry, view: View, depth: nat, os: seq<CliOpt>): set<Key> {
    if os == [] then {}
    else
      var init := os[..|os| - 1];
      var before := ValidationStores(reg, view, depth, init);
      if !ValidatedAll(reg, view, depth, init).Valid? then before
      else before + ValidationStoresOf(reg, view, depth, os[|os| - 1])
  }

  lemma {:induction false} ValidIff(reg: Registry, view: View, depth: nat, os: seq<CliOpt>)
    ensures ValidatedAll(reg, view, depth, os).Valid? <==>
            forall o :: o in os ==> Validated(reg, view, depth, o).Valid?
  {
    hide Validated;
    if os != [] {
      var init, last := os[..|os| - 1], os[|os| - 1];
      ValidIff(reg, view, depth, init);
      assert os == init + [last];
    }
  }

  lemma AllValidIff(reg: Registry, view: View, depth: nat)
    ensures ValidatedAll(reg, view, depth, ByName(reg.cliOpts)).Valid? <==> AllValid(reg, view, depth)
  {
    hide Validated;
    ValidIff(reg, view, depth, ByName(reg.cliOpts));
    SortedMembers(reg.cliOpts, (o: CliOpt) => o.opt.name);
  }

  // Nothing is looked at after the first fault.
  lemma {:induction false} FirstFault(reg: Registry, view: View, depth: nat, os: seq<CliOpt>, i: nat)
    requires i <= |os| && !ValidatedAll(reg, view, depth, os[..i]).Valid?
    ensures ValidatedAll(reg, view, depth, os) == ValidatedAll(reg, view, depth, os[..i])
    ensures ValidationStores(reg, view, depth, os) == ValidationStores(reg, view, depth, os[..i])
    decreases |os|
  {
    hide Validated, ValidationStoresOf;
    if i == |os| {
      assert os[..i] == os;
    } else {
      assert os[..|os| - 1][..i] == os[..i];
      FirstFault(reg, view, depth, os[..|os| - 1], i);
    }
  }

  // The options `_check_required_opts` looks up.
  predicate MustBeGiven(info: Info) {
    info.opt.required && info.override.None? && info.default.None?
  }

  function RequiredKeys(reg: Registry): set<Key> {
    set k | k in AllKeys(reg) && MustBeGiven(InfoOf(reg, k))
  }

  lemma RequiredAmong(reg: Registry)
    ensures RequiredKeys(reg) <= AllKeys(reg)
  {
    hide AllKeys, InfoOf, MustBeGiven;
  }

  lemma RequiredRest(reg: Registry, todo: set<Key>, k: Key)
    requires todo <= AllKeys(reg) && k in todo
    ensures MustBeGiven(InfoOf(reg, k)) ==> RequiredKeys(reg) - (todo - {k}) == RequiredKeys(reg) - todo + {k}
    ensures !MustBeGiven(InfoOf(reg, k)) ==> RequiredKeys(reg) - (todo - {k}) == RequiredKeys(reg) - todo
    ensures RequiredKeys(reg) - (todo - {k}) <= RequiredKeys(reg)
  {
    hide AllKeys, InfoOf, MustBeGiven;
  }

  ghost predicate IsGiven(reg: Registry, view: View, depth: nat, k: Key) {
    Eval(reg, k, Some(view), depth).Ok? && Eval(reg, k, Some(view), depth).value != NoneVal
  }

  // The view has a value for every option that needs one.
  ghost predicate AllGiven(reg: Registry, view: View, depth: nat) {
    forall k :: k in RequiredKeys(reg) ==> IsGiven(reg, view, depth, k)
  }

  function RequiredStores(reg: Registry, view: View, depth: nat, looked: set<Key>): set<Key> {
    set k, m | k in looked && m in Stored(reg, k, Some(view), depth) :: m
  }

  lemma RequiredMore(reg: Registry, view: View, depth: nat, looked: set<Key>, k: Key)
    ensures RequiredStores(reg, view, depth, looked + {k})
         == RequiredStores(reg, view, depth, looked) + Stored(reg, k, Some(view), depth)
    ensures RequiredStores(reg, view, depth, {}) == {}
  {
    hide Stored;
  }

  lemma RequiredWrote(reg: Registry, view: View, depth: nat, looked: set<Key>, k: Key, before: map<Key, Val>,
                      mid: map<Key, Val>, after: map<Key, Val>)
    requires PlainIn(reg, Some(view)) && Recorded(reg, k, Some(view), depth, mid, after)
    requires Wrote(reg, Some(view), RequiredStores(reg, view, depth, looked), before, mid)
    ensures Wrote(reg, Some(view), RequiredStores(reg, view, depth, looked + {k}), before, after)
  {
    hide PlainIn, Recorded, Wrote, Stored, RequiredStores;
    RecordedWrote(reg, k, Some(view), depth, mid, after);
    RequiredMore(reg, view, depth, looked, k);
    WroteMore(reg, Some(view), RequiredStores(reg, view, depth, looked), Stored(reg, k, Some(view), depth), before, mid,
              after);
  }

  // Everything loading stores: what validation looks up, and then what the required options do that are looked up.
  function LoadStores(reg: Registry, view: View, depth: nat, looked: set<Key>): set<Key> {
    ValidationStores(reg, view, depth, ByName(reg.cliOpts)) + RequiredStores(reg, view, depth, looked)
  }

  datatype LoadError =
    | Unreadable
    | BadArgument(o: CliOpt)
    | FilesMissing(paths: seq<string>)
    | RequiredMissing(k: Key)
    | LookupFailed(error: Error)

  datatype Check = Fine | Missing(k: Key) | Failed(error: Error)

  ghost predicate Checks(reg: Registry, view: View, depth: nat, c: Check, looked: set<Key>) {
    && looked <= RequiredKeys(reg)
    && match c
       case Fine => looked == RequiredKeys(reg) && AllGiven(reg, view, depth)
       case Missing(k) => k in looked && Eval(reg, k, Some(view), depth) == Ok(NoneVal)
       case Failed(e) => exists k :: k in looked && Eval(reg, k, Some(view), depth) == Err(e)
  }

  lemma CheckedOne(reg: Registry, view: View, depth: nat, k: Key, looked: set<Key>)
    requires looked <= RequiredKeys(reg) && k in looked
    ensures var r := Eval(reg, k, Some(view), depth);
      if r.Err? then Checks(reg, view, depth, Failed(r.error), looked)
      else if r.value == NoneVal then Checks(reg, view, depth, Missing(k), looked)
      else IsGiven(reg, view, depth, k)
  {
    hide Eval, RequiredKeys;
  }

  lemma CheckedAll(reg: Registry, view: View, depth: nat)
    ensures (forall k :: k in RequiredKeys(reg) ==> IsGiven(reg, view, depth, k)) ==>
            Checks(reg, view, depth, Fine, RequiredKeys(reg))
  {
    hide IsGiven, RequiredKeys;
  }

  function CheckError(c: Check): LoadError
    requires !c.Fine?
  {
    if c.Missing? then RequiredMissing(c.k) else LookupFailed(c.error)
  }

  lemma NoneRequired(reg: Registry, view: View, depth: nat)
    ensures LoadStores(reg, view, depth, {}) == ValidationStores(reg, view, depth, ByName(reg.cliOpts))
  {
    hide ValidationStores, ByName;
    RequiredMore(reg, view, depth, {}, Key(None, ""));
  }

  // How loading ends: with the first fault of validation, a missing file, or some required option that is not given;
  // `looked` are the required options that were looked up.
  ghost predicate Loads(reg: Registry, files: Parsed, depth: nat, r: Result<View, LoadError>, looked: set<Key>)
    requires files.Parsed?
  {
    match ValidatedAll(reg, files.view, depth, ByName(reg.cliOpts))
    case Exits(o) => r == Err(BadArgument(o)) && looked == {}
    case Raises(e) => r == Err(LookupFailed(e)) && looked == {}
    case Valid =>
      if files.missing != [] then r == Err(FilesMissing(files.missing)) && looked == {}
      else
        exists c :: Checks(reg, files.view, depth, c, looked)
                    && r == if c.Fine? then Ok(files.view) else Err(CheckError(c))
  }

  // What a reload makes of it: only a plain ValueError and the recursion limit get out.
  function ReloadOutcome(load: Result<View, LoadError>): Result<bool, Error> {
    match load
    case Ok(_) => Ok(true)
    case Err(LookupFailed(e)) => if e == BadValue || e == RecursionLimit then Err(e) else Ok(false)
    case Err(_) => Ok(false)
  }

  // Files that can be used: all found, all values of command-line options valid, all required options given.
  ghost predicate Accepted(reg: Registry, files: Parsed, depth: nat) {
    && files.Parsed? && files.missing == []
    && AllValid(reg, files.view, depth) && AllGiven(reg, files.view, depth)
  }

  lemma LoadsIff(reg: Registry, files: Parsed, depth: nat, r: Result<View, LoadError>, looked: set<Key>)
    requires files.Parsed? && Loads(reg, files, depth, r, looked)
    ensures r.Ok? <==> Accepted(reg, files, depth)
    ensures r.Ok? ==> looked == RequiredKeys(reg)
  {
    hide AllValid, ValidatedAll, ByName, RequiredKeys, Eval;
    AllValidIff(reg, files.view, depth);
  }

  // A cache that loading wrote is right exactly when what was looked up has the values of the files in effect.
  lemma LoadedCache(reg: Registry, reg': Registry, view: View, keys: set<Key>, before: map<Key, Val>,
                    after: map<Key, Val>)
    requires PlainIn(reg, Some(view)) && SameOptions(reg, reg') && Wrote(reg, Some(view), keys, before, after)
    requires CoherentIn(reg', before)
    ensures CoherentIn(reg', after) <==> forall k :: k in keys ==> Alike(reg', k, Some(view))
  {
    hide Finds, PlainIn, Wrote, Alike, SameOptions;
    NamedFinds(reg, reg', Some(view));
    WrittenCache(reg, reg', Some(view), keys, before, after);
  }

  // An option that reads the mutable namespace when there is one.
  predicate IsMutable(reg: Registry, k: Key) {
    FindInfo(reg, k).Ok? && FindInfo(reg, k).value.opt.mutable
  }

  /* ---------- mutation ---------- */

  function RawOf(reg: Registry, k: Key, view: View): Option<Raw>
    requires k in AllKeys(reg)
  {
    GetFromNamespace(InfoOf(reg, k).opt, view, k.group)
  }

  // An option is reported under its group and name.
  type DiffKey = (Option<string>, string)

  type Diff = map<DiffKey, (Option<Raw>, Option<Raw>)>

  function DiffKeyOf(reg: Registry, k: Key): DiffKey
    requires k in AllKeys(reg)
  {
    (k.group, InfoOf(reg, k).opt.name)
  }

  predicate Differs(reg: Registry, k: Key, before: View, after: View)
    requires k in AllKeys(reg)
  {
    InfoOf(reg, k).opt.mutable && RawOf(reg, k, before) != RawOf(reg, k, after)
  }

  // The diff reports exactly the mutable options with a new raw value, each with both values.
  ghost predicate IsDiff(reg: Registry, keys: set<Key>, before: View, after: View, diff: Diff)
    requires keys <= AllKeys(reg)
  {
    && (forall k :: k in keys && Differs(reg, k, before, after) ==> DiffKeyOf(reg, k) in diff)
    && (forall d :: d in diff ==>
          exists k :: k in keys && Differs(reg, k, before, after) && DiffKeyOf(reg, k) == d
            && diff[d] == (RawOf(reg, k, before), RawOf(reg, k, after)))
  }

  // Options of a group are told apart by their names.
  ghost predicate DistinctNames(reg: Registry) {
    forall k, k' ::
      (&& FindInfo(reg, k).Ok? && FindInfo(reg, k').Ok? && k.group == k'.group
       && FindInfo(reg, k).value.opt.name == FindInfo(reg, k').value.opt.name) ==> k == k'
  }

  // An option is in the diff, under its group and name, exactly when it is mutable and the two namespaces have
  // different values for it; and then with these.
  ghost predicate ReportedExactly(reg: Registry, k: Key, before: View, after: View, diff: Diff)
    requires FindInfo(reg, k).Ok?
  {
    var opt := FindInfo(reg, k).value.opt;
    var d := (k.group, opt.name);
    var change := (GetFromNamespace(opt, before, k.group), GetFromNamespace(opt, after, k.group));
    && (d in diff <==> opt.mutable && change.0 != change.1)
    && (d in diff ==> diff[d] == change)
  }

  /** The diff says exactly which mutable options have other values now, and nothing of immutable ones. */
  lemma DiffReports(reg: Registry, before: View, after: View, diff: Diff)
    requires DistinctNames(reg) && IsDiff(reg, AllKeys(reg), before, after, diff)
    ensures forall k :: FindInfo(reg, k).Ok? ==> ReportedExactly(reg, k, before, after, diff)
    ensures forall d :: d in diff ==>
      exists k :: FindInfo(reg, k).Ok? && FindInfo(reg, k).value.opt.mutable
                  && d == (k.group, FindInfo(reg, k).value.opt.name)
  {
    hide GetFromNamespace, AllKeys, FindInfo;
    forall k ensures FindInfo(reg, k).Ok? <==> k in AllKeys(reg) {
      AllKeysFound(reg, k);
    }
    forall d | d in diff
      ensures exists k :: FindInfo(reg, k).Ok? && FindInfo(reg, k).value.opt.mutable
                          && d == (k.group, FindInfo(reg, k).value.opt.name)
    {
      var k :| k in AllKeys(reg) && Differs(reg, k, before, after) && DiffKeyOf(reg, k) == d;
      assert FindInfo(reg, k).Ok?;
    }
  }

  /* ---------- a new group ---------- */

  // A lookup that notices whether there is a group g.
  predicate Touches(k: Key, g: string) {
    k == Key(None, g) || k.group == Some(g)
  }

  // No option has the group's name, and no value in use refers to it or into it.
  ghost predicate Unmentioned(reg: Registry, g: string) {
    && g !in reg.opts
    && forall k: Key, ns: Option<View>, m: Node ::
         ((ns.None? || ns == reg.namespace) && !Touches(k, g) && m in Next(reg, Node(k, ns))) ==> !Touches(m.key, g)
  }

  lemma UnmentionedOption(reg: Registry, g: string)
    requires Unmentioned(reg, g)
    ensures g !in reg.opts
  {
  }

  // An empty group that nothing mentions changes no lookup.
  lemma NewGroupEval(reg: Registry, g: string, k: Key, d: nat)
    requires g !in reg.groups && reg.mutableNs.None? && Unmentioned(reg, g) && !Touches(k, g)
    ensures Eval(WithGroup(reg, g), k, None, d) == Eval(reg, k, None, d)
  {
    hide PlanOf, Eval;
    var reg' := WithGroup(reg, g);
    var good := (n: Node) => !Touches(n.key, g) && (n.ns.None? || n.ns == reg.namespace);
    forall n | good(n)
      ensures PlanOf(reg, n.key, n.ns) == PlanOf(reg', n.key, n.ns)
      ensures forall m :: m in Next(reg, n) ==> good(m)
    {
      PlanWithGroup(reg, g, n.key, n.ns);
      SettledNext(reg, n.key, n.ns);
      assert n == Node(n.key, n.ns);
    }
    SameEval(reg, reg', good, k, None, d);
  }

  // A cached value does not come from a group that is not there.
  lemma NotInNewGroup(reg: Registry, g: string, k: Key, v: Val)
    requires g !in reg.groups && g !in reg.opts && Denotes(reg, k, v)
    ensures !Touches(k, g)
  {
    var d: nat :| Eval(reg, k, None, d) == Ok(v);
    NoDepth(reg, k, None);
    EvalPlan(reg, k, None, if d == 0 then 1 else d);
  }

  // A value found before is found with the new group exactly when its lookup does not come by the group's name; only
  // an option of that name that had the group itself as its value comes by it unharmed.
  lemma GroupKeepsAnswer(reg: Registry, g: string, k: Key, v: Val)
    requires g !in reg.groups && Denotes(reg, k, v)
    ensures Denotes(WithGroup(reg, g), k, v)
       <==> (LooksUp(reg, k, Key(None, g)) ==> k == Key(None, g) && v == GroupAttr(g))
  {
    hide Eval, Visits;
    var reg' := WithGroup(reg, g);
    var d: nat :| Eval(reg, k, None, d) == Ok(v);
    EvalWithGroup(reg, g, k, None, d);
    if LooksUp(reg, k, Key(None, g)) {
      var e: nat :| !Hit(Eval(reg, k, None, e)) && Visits(reg, k, None, e, Key(None, g));
      EvalWithGroup(reg, g, k, None, e);
      if Eval(reg', k, None, e) != Ok(v) {
        SettledOutcome(reg', k, e, Eval(reg', k, None, e), v);
      }
    }
  }

  // Some cached value's lookup comes by the name of the new group.
  ghost predicate NewGroupBreaks(reg: Registry, cache: map<Key, Val>, g: string) {
    exists k :: k in cache && LooksUp(reg, k, Key(None, g)) && !(k == Key(None, g) && cache[k] == GroupAttr(g))
  }

  // That is exactly when registering the group makes the cache wrong.
  lemma GroupKeepsCache(reg: Registry, cache: map<Key, Val>, g: string)
    requires g !in reg.groups && CoherentIn(reg, cache)
    ensures CoherentIn(WithGroup(reg, g), cache) <==> !NewGroupBreaks(reg, cache, g)
  {
    hide Denotes, LooksUp;
    forall k | k in cache
      ensures Denotes(WithGroup(reg, g), k, cache[k])
         <==> (LooksUp(reg, k, Key(None, g)) ==> k == Key(None, g) && cache[k] == GroupAttr(g))
    {
      GroupKeepsAnswer(reg, g, k, cache[k]);
    }
  }

  // A group that nothing mentions is one that no cached value's lookup comes by.
  lemma UnmentionedKeeps(reg: Registry, cache: map<Key, Val>, g: string)
    requires g !in reg.groups && reg.mutableNs.None? && Unmentioned(reg, g) && CoherentIn(reg, cache)
    ensures !NewGroupBreaks(reg, cache, g)
  {
    hide Eval, PlanOf, Unmentioned, LooksUp;
    forall k | k in cache ensures Denotes(WithGroup(reg, g), k, cache[k]) {
      assert Denotes(reg, k, cache[k]);
      UnmentionedOption(reg, g);
      NotInNewGroup(reg, g, k, cache[k]);
      var d: nat :| Eval(reg, k, None, d) == Ok(cache[k]);
      NewGroupEval(reg, g, k, d);
    }
    GroupKeepsCache(reg, cache, g);
  }

  // A reference and the tokens after it, each answered at a depth of its own, are answered together at the greater one.
  lemma TokensMatch(reg: Registry, ts: seq<Token>, group: Option<string>, ns: Option<View>, d: nat, w: nat, w': nat,
                    head: Outcome, rest: Result<string, Error>)
    requires ts != [] && ts[0].Reference? && head.Ok?
    ensures
      && Matches(head, Resolve(reg, ts[0].name, group, ns, d), Resolve(reg, ts[0].name, group, ns, w), d, w)
      && Matches(rest, SubstTokens(reg, ts[1..], group, ns, d), SubstTokens(reg, ts[1..], group, ns, w'), d, w') ==>
        Matches(if rest.Err? then rest else Ok(reg.types.show(head.value) + rest.value),
                SubstTokens(reg, ts, group, ns, d),
                SubstTokens(reg, ts, group, ns, Max(w, w')), d, Max(w, w'))
  {
    hide Resolve;
    if d <= w {
      ResolveMore(reg, ts[0].name, group, ns, d, w);
    }
    ResolveMore(reg, ts[0].name, group, ns, w, Max(w, w'));
    SubstTokensMore(reg, ts[1..], group, ns, w', Max(w, w'));
  }

  // The same for the items of a list.
  lemma AllMatch(reg: Registry, vs: seq<Val>, group: Option<string>, ns: Option<View>, d: nat, w: nat, w': nat,
                 head: Outcome, rest: Result<seq<Val>, Error>)
    requires vs != [] && head.Ok?
    ensures
      && Matches(head, Subst(reg, vs[0], group, ns, d), Subst(reg, vs[0], group, ns, w), d, w)
      && Matches(rest, SubstAll(reg, vs[1..], group, ns, d), SubstAll(reg, vs[1..], group, ns, w'), d, w') ==>
        Matches(if rest.Err? then rest else Ok([head.value] + rest.value), SubstAll(reg, vs, group, ns, d),
                SubstAll(reg, vs, group, ns, Max(w, w')), d, Max(w, w'))
  {
    hide Subst;
    if d <= w {
      SubstMore(reg, vs[0], group, ns, d, w);
    }
    SubstMore(reg, vs[0], group, ns, w, Max(w, w'));
    SubstAllMore(reg, vs[1..], group, ns, w', Max(w, w'));
  }

  lemma AllStep(reg: Registry, vs: seq<Val>, group: Option<string>, ns: Option<View>, d: nat)
    requires vs != []
    ensures
      var head, own := Subst(reg, vs[0], group, ns, d), StoredIn(reg, vs[0], group, ns, d);
      var rest, stored := SubstAll(reg, vs[1..], group, ns, d), StoredInAll(reg, vs[1..], group, ns, d);
      if head.Err? then
        SubstAll(reg, vs, group, ns, d) == Err(head.error) && StoredInAll(reg, vs, group, ns, d) == own
      else
        && SubstAll(reg, vs, group, ns, d) == (if rest.Err? then rest else Ok([head.value] + rest.value))
        && StoredInAll(reg, vs, group, ns, d) == own + stored
  {
    hide Subst, StoredIn;
  }

  lemma ItemFails(reg: Registry, vs: seq<Val>, group: Option<string>, ns: Option<View>, d: nat, w: nat, head: Outcome)
    requires vs != [] && head.Err?
    ensures
      Matches(head, Subst(reg, vs[0], group, ns, d), Subst(reg, vs[0], group, ns, w), d, w) ==>
        Matches(Err(head.error), SubstAll(reg, vs, group, ns, d), SubstAll(reg, vs, group, ns, w), d, w)
  {
    hide Subst;
  }

  lemma NoItems(reg: Registry, group: Option<string>, ns: Option<View>, d: nat)
    ensures SubstAll(reg, [], group, ns, d) == Ok([]) && StoredInAll(reg, [], group, ns, d) == {}
    ensures Matches<seq<Val>>(Ok([]), SubstAll(reg, [], group, ns, d), SubstAll(reg, [], group, ns, d), d, d)
  {
  }

  lemma ValueStep(reg: Registry, v: Val, group: Option<string>, ns: Option<View>, d: nat)
    ensures v.Lst? ==>
      var r := SubstAll(reg, v.items, group, ns, d);
      && Subst(reg, v, group, ns, d) == (if r.Ok? then Ok(Lst(r.value)) else Err(r.error))
      && StoredIn(reg, v, group, ns, d) == StoredInAll(reg, v.items, group, ns, d)
    ensures v.Str? ==>
      var r := SubstTokens(reg, TokensOf(v.text), group, ns, d);
      && Subst(reg, v, group, ns, d) == (if r.Ok? then Ok(Str(r.value)) else Err(r.error))
      && StoredIn(reg, v, group, ns, d) == StoredInTokens(reg, TokensOf(v.text), group, ns, d)
    ensures !v.Lst? && !v.Str? ==> Subst(reg, v, group, ns, d) == Ok(v) && StoredIn(reg, v, group, ns, d) == {}
  {
    hide SubstAll, SubstTokens, StoredInAll, StoredInTokens, Tokens, Unescape;
  }

  lemma IndependentText(reg: Registry, s: string, ns: Option<View>)
    ensures References(Str(s)) == ReferencesIn(TokensOf(s))
    ensures Independent(reg, Str(s), ns) <==> ReferencesIn(TokensOf(s)) == {} || (ns.Some? && PlainIn(reg, ns))
  {
    hide PlainIn;
  }

  lemma IndependentItems(reg: Registry, items: seq<Val>, ns: Option<View>)
    ensures Independent(reg, Lst(items), ns) ==> forall i :: 0 <= i < |items| ==> Independent(reg, items[i], ns)
  {
    hide PlainIn;
    ListReferences(items);
  }

  lemma TokensStep(reg: Registry, ts: seq<Token>, group: Option<string>, ns: Option<View>, d: nat)
    requires ts != []
    ensures var rest, stored := SubstTokens(reg, ts[1..], group, ns, d), StoredInTokens(reg, ts[1..], group, ns, d);
      if ts[0].Literal? then
        && SubstTokens(reg, ts, group, ns, d) == (if rest.Err? then rest else Ok([ts[0].c] + rest.value))
        && StoredInTokens(reg, ts, group, ns, d) == stored
      else
        var head, own := Resolve(reg, ts[0].name, group, ns, d), StoredByName(reg, ts[0].name, group, ns, d);
        if head.Err? then
          SubstTokens(reg, ts, group, ns, d) == Err(head.error) && StoredInTokens(reg, ts, group, ns, d) == own
        else
          && SubstTokens(reg, ts, group, ns, d)
             == (if rest.Err? then rest else Ok(reg.types.show(head.value) + rest.value))
          && StoredInTokens(reg, ts, group, ns, d) == own + stored
  {
    hide Resolve, StoredByName;
  }

  lemma LiteralMatches(reg: Registry, ts: seq<Token>, group: Option<string>, ns: Option<View>, d: nat, w: nat,
                       rest: Result<string, Error>)
    requires ts != [] && ts[0].Literal?
    ensures Matches(rest, SubstTokens(reg, ts[1..], group, ns, d), SubstTokens(reg, ts[1..], group, ns, w), d, w) ==>
      Matches(if rest.Err? then rest else Ok([ts[0].c] + rest.value), SubstTokens(reg, ts, group, ns, d),
              SubstTokens(reg, ts, group, ns, w), d, w)
  {
    hide Resolve;
  }

  lemma HeadFails(reg: Registry, ts: seq<Token>, group: Option<string>, ns: Option<View>, d: nat, w: nat, head: Outcome)
    requires ts != [] && ts[0].Reference? && head.Err?
    ensures
      Matches(head, Resolve(reg, ts[0].name, group, ns, d), Resolve(reg, ts[0].name, group, ns, w), d, w) ==>
        Matches(Err(head.error), SubstTokens(reg, ts, group, ns, d), SubstTokens(reg, ts, group, ns, w), d, w)
  {
    hide Resolve;
  }

  lemma NoTokens(reg: Registry, group: Option<string>, ns: Option<View>, d: nat)
    ensures SubstTokens(reg, [], group, ns, d) == Ok("") && StoredInTokens(reg, [], group, ns, d) == {}
    ensures Matches<string>(Ok(""), SubstTokens(reg, [], group, ns, d), SubstTokens(reg, [], group, ns, d), d, d)
  {
  }

  class ConfigOpts {
    const types: Types
    var opts: Group
    var groups: map<string, Group>
    var cliOpts: seq<CliOpt>
    var parsed: bool                     // command-line arguments have been parsed
    var namespace: Option<View>
    var mutableNs: Option<View>
    var validateDefaults: bool
    var cache: map<Key, Val>

    function Reg(): Registry
      reads this
    {
      Registry(types, opts, groups, cliOpts, namespace, mutableNs, validateDefaults)
    }

    // Every cached value is what an uncached lookup finds now.
    ghost predicate Coherent()
      reads this
    {
      CoherentIn(Reg(), cache)
    }

    constructor (types: Types)
      ensures Coherent() && cache == map[]
      ensures Reg() == Registry(types, map[], map[], [], None, None, false)
    {
      this.types := types;
      opts, groups, cliOpts, parsed := map[], map[], [], false;
      namespace, mutableNs, validateDefaults := None, None, false;
      cache := map[];
    }

    /* ---------- lookups ---------- */

    method Get(k: Key, ns: Option<View>, depth: nat) returns (r: Outcome, ghost w: nat)
      modifies this`cache
      ensures old(Coherent()) && Harmless(Reg(), k, ns) ==>
        Coherent() && Matches(r, Eval(Reg(), k, ns, depth), Eval(Reg(), k, ns, w), depth, w)
      ensures ns.None? && k in old(cache) ==> r == Ok(old(cache)[k]) && cache == old(cache)
      ensures Uncached(Reg(), k, ns) && !(ns.None? && k in old(cache)) ==>
        r == Eval(Reg(), k, ns, depth) && Recorded(Reg(), k, ns, depth, old(cache), cache)
      decreases depth, 3
    {
      hide PlanOf, Eval, Uncached, Harmless, Wrote, Nested;
      w := depth;
      if ns.None? && k in cache {
        r := Ok(cache[k]);
        if Coherent() {
          assert Denotes(Reg(), k, cache[k]);
          var d: nat :| Eval(Reg(), k, None, d) == Ok(cache[k]);
          EvalMore(Reg(), k, None, d, Max(d, depth));
          w := Max(d, depth);
        }
        return;
      }
      r, w := DoGet(k, ns, depth);
      if r.Ok? {
        ghost var reg := Reg();
        if old(Coherent()) && Harmless(reg, k, ns) {
          HarmlessEval(reg, k, ns);
          assert Denotes(reg, k, r.value);
        }
        cache := cache[k := r.value];
      }
    }

    method DoGet(k: Key, ns: Option<View>, depth: nat) returns (r: Outcome, ghost w: nat)
      modifies this`cache
      ensures old(Coherent()) && Harmless(Reg(), k, ns) ==>
        Coherent() && Matches(r, Eval(Reg(), k, ns, depth), Eval(Reg(), k, ns, w), depth, w)
      ensures Uncached(Reg(), k, ns) ==>
        r == Eval(Reg(), k, ns, depth) && WroteNested(Reg(), k, ns, depth, old(cache), cache)
      decreases depth, 2
    {
      hide Eval, Subst, References, GetFromNamespace, RawVal, Convert, Finished, Coherent;
      w := depth;
      if depth == 0 {
        NoDepth(Reg(), k, ns);
        return Err(RecursionLimit), w;
      }
      EvalPlan(Reg(), k, ns, depth);
      if k.group.None? && k.name in groups {
        return Ok(GroupAttr(k.name)), w;
      }
      var found := FindInfo(Reg(), k);
      if found.Err? {
        return Err(found.error), w;
      }
      r, w := GetLayered(k, found.value, ns, depth);
    }

    // The layers of a registered option.
    method GetLayered(k: Key, info: Info, ns: Option<View>, depth: nat) returns (r: Outcome, ghost w: nat)
      requires depth > 0 && FindInfo(Reg(), k) == Ok(info) && !(k.group.None? && k.name in groups)
      modifies this`cache
      ensures old(Coherent()) && Harmless(Reg(), k, ns) ==>
        Coherent() && Matches(r, Eval(Reg(), k, ns, depth), Eval(Reg(), k, ns, w), depth, w)
      ensures Uncached(Reg(), k, ns) ==>
        r == Eval(Reg(), k, ns, depth) && WroteNested(Reg(), k, ns, depth, old(cache), cache)
      decreases depth, 1
    {
      hide Eval, References, GetFromNamespace, RawVal, Coherent, FindInfo;
      if info.override.Some? {
        r, w := Substituted(k, ns, info.override.value, None, None, AsIs, depth);
        return;
      }
      var namespace' := ns;
      if info.opt.mutable && namespace'.None? {
        namespace' := mutableNs;
      }
      if namespace'.None? {
        namespace' := namespace;
      }
      if namespace'.Some? {
        var raw := GetFromNamespace(info.opt, namespace'.value, k.group);
        if raw.Some? {
          r, w := Substituted(k, ns, RawVal(raw.value), k.group, namespace', Converted(info.opt, true), depth);
          return;
        }
      }
      if info.default.Some? {
        r, w := Substituted(k, ns, info.default.value, None, None, AsIs, depth);
        return;
      }
      if info.opt.default != NoneVal {
        r, w := Substituted(k, ns, info.opt.default, k.group, namespace', Converted(info.opt, validateDefaults), depth);
        return;
      }
      EvalPlan(Reg(), k, ns, depth);
      return Ok(NoneVal), depth;
    }

    // Substitution, and unless the value is taken as it is, conversion with the treatment of its ValueError.
    method Substituted(ghost k: Key, ghost ns: Option<View>, v: Val, group: Option<string>, n: Option<View>,
                       f: Finish, depth: nat)
      returns (r: Outcome, ghost w: nat)
      requires depth > 0 && PlanOf(Reg(), k, ns) == Substitute(v, group, n, f)
      modifies this`cache
      ensures old(Coherent()) && Harmless(Reg(), k, ns) ==>
        Coherent() && Matches(r, Eval(Reg(), k, ns, depth), Eval(Reg(), k, ns, w), depth, w)
      ensures Uncached(Reg(), k, ns) ==>
        r == Eval(Reg(), k, ns, depth) && WroteNested(Reg(), k, ns, depth, old(cache), cache)
      decreases depth, 0
    {
      hide Eval, Subst, References, PlanOf, Convert, Coherent;
      if Harmless(Reg(), k, ns) {
        HarmlessNext(Reg(), k, ns);
      }
      EvalPlan(Reg(), k, ns, depth);
      r, w := SubstituteValue(v, group, n, depth - 1);
      w := w + 1;
      EvalPlan(Reg(), k, ns, w);
      if f.Converted? && r.Ok? {
        ConvertErrors(types, f.opt, r.value);
      }
      if f.Converted? {
        r := if r.Err? then r else Convert(types, f.opt, r.value);
        if f.wrapped && (r == Err(BadValue) || r == Err(BadFileValue)) {
          r := Err(BadFileValue);
        }
      }
    }

    method SubstituteValue(v: Val, group: Option<string>, ns: Option<View>, depth: nat) returns (r: Outcome,
                           ghost w: nat)
      modifies this`cache
      ensures old(Coherent()) && HarmlessRefs(Reg(), References(v), group, ns) ==>
        Coherent() && Matches(r, Subst(Reg(), v, group, ns, depth), Subst(Reg(), v, group, ns, w), depth, w)
      ensures Independent(Reg(), v, ns) ==>
        && r == Subst(Reg(), v, group, ns, depth)
        && Wrote(Reg(), ns, StoredIn(Reg(), v, group, ns, depth), old(cache), cache)
      decreases depth, 6, v
    {
      hide Tokens, Unescape, Coherent, Subst, StoredIn, SubstAll, SubstTokens, StoredInAll, StoredInTokens, Wrote,
        PlainIn, References, HarmlessRefs, Independent;
      ghost var reg := Reg();
      ValueStep(reg, v, group, ns, depth);
      match v {
        case Lst(items) =>
          var vs;
          if HarmlessRefs(reg, References(v), group, ns) {
            HarmlessItems(reg, items, group, ns);
          }
          IndependentItems(reg, items, ns);
          vs, w := SubstituteItems(items, group, ns, depth);
          r := if vs.Ok? then Ok(Lst(vs.value)) else Err(vs.error);
        case Str(s) =>
          var text;
          IndependentText(reg, s, ns);
          text, w := SafeSubstitute(TokensOf(s), group, ns, depth);
          r := if text.Ok? then Ok(Str(text.value)) else Err(text.error);
        case _ =>
          WroteNothing(reg, ns, cache);
          r, w := Ok(v), depth;
      }
      ValueStep(reg, v, group, ns, w);
    }

    method SubstituteItems(vs: seq<Val>, group: Option<string>, ns: Option<View>, depth: nat)
      returns (r: Result<seq<Val>, Error>, ghost w: nat)
      modifies this`cache
      ensures old(Coherent()) && (forall i :: 0 <= i < |vs| ==> HarmlessRefs(Reg(), References(vs[i]), group, ns)) ==>
        Coherent() && Matches(r, SubstAll(Reg(), vs, group, ns, depth), SubstAll(Reg(), vs, group, ns, w), depth, w)
      ensures (forall i :: 0 <= i < |vs| ==> Independent(Reg(), vs[i], ns)) ==>
        && r == SubstAll(Reg(), vs, group, ns, depth)
        && Wrote(Reg(), ns, StoredInAll(Reg(), vs, group, ns, depth), old(cache), cache)
      decreases depth, 6, vs
    {
      hide References, Subst, Coherent, Wrote, Independent, HarmlessRefs, StoredIn, SubstAll, StoredInAll, Matches, Max;
      w := depth;
      if vs == [] {
        NoItems(Reg(), group, ns, depth);
        WroteNothing(Reg(), ns, cache);
        return Ok([]), w;
      }
      ghost var w', reg, before := depth, Reg(), cache;
      var head, rest;
      AllStep(reg, vs, group, ns, depth);
      head, w := SubstituteValue(vs[0], group, ns, depth);
      if head.Err? {
        ItemFails(reg, vs, group, ns, depth, w, head);
        return Err(head.error), w;
      }
      ghost var mid := cache;
      rest, w' := SubstituteItems(vs[1..], group, ns, depth);
      if forall i :: 0 <= i < |vs| ==> Independent(reg, vs[i], ns) {
        WroteMore(reg, ns, StoredIn(reg, vs[0], group, ns, depth), StoredInAll(reg, vs[1..], group, ns, depth),
                  before, mid, cache);
      }
      AllMatch(reg, vs, group, ns, depth, w, w', head, rest);
      w := Max(w, w');
      r := if rest.Err? then rest else Ok([head.value] + rest.value);
    }

    method SafeSubstitute(ts: seq<Token>, group: Option<string>, ns: Option<View>, depth: nat)
      returns (r: Result<string, Error>, ghost w: nat)
      modifies this`cache
      ensures old(Coherent()) && HarmlessRefs(Reg(), ReferencesIn(ts), group, ns) ==>
        && Coherent()
        && Matches(r, SubstTokens(Reg(), ts, group, ns, depth), SubstTokens(Reg(), ts, group, ns, w), depth, w)
      ensures ReferencesIn(ts) == {} || (ns.Some? && PlainIn(Reg(), ns)) ==>
        && r == SubstTokens(Reg(), ts, group, ns, depth)
        && Wrote(Reg(), ns, StoredInTokens(Reg(), ts, group, ns, depth), old(cache), cache)
      decreases depth, 5, |ts|, 1
    {
      hide Resolve, Coherent, PlainIn, Wrote, HarmlessRefs, Harmless, StoredByName, ReferencesIn, FirstKey, SubstTokens,
        StoredInTokens, Matches, Max;
      ghost var reg := Reg();
      if ts == [] {
        NoTokens(reg, group, ns, depth);
        WroteNothing(reg, ns, cache);
        return Ok(""), depth;
      }
      ReferencesListed(ts);
      if ts[0].Reference? {
        r, w := SubstituteReference(ts, group, ns, depth);
        return;
      }
      TokensStep(reg, ts, group, ns, depth);
      if HarmlessRefs(reg, ReferencesIn(ts), group, ns) {
        HarmlessTokens(reg, ts, group, ns);
      }
      r, w := SafeSubstitute(ts[1..], group, ns, depth);
      LiteralMatches(reg, ts, group, ns, depth, w, r);
      r := if r.Err? then r else Ok([ts[0].c] + r.value);
    }

    // A reference, and then the rest.
    method SubstituteReference(ts: seq<Token>, group: Option<string>, ns: Option<View>, depth: nat)
      returns (r: Result<string, Error>, ghost w: nat)
      requires ts != [] && ts[0].Reference?
      modifies this`cache
      ensures old(Coherent()) && HarmlessRefs(Reg(), ReferencesIn(ts), group, ns) ==>
        && Coherent()
        && Matches(r, SubstTokens(Reg(), ts, group, ns, depth), SubstTokens(Reg(), ts, group, ns, w), depth, w)
      ensures ns.Some? && PlainIn(Reg(), ns) ==>
        && r == SubstTokens(Reg(), ts, group, ns, depth)
        && Wrote(Reg(), ns, StoredInTokens(Reg(), ts, group, ns, depth), old(cache), cache)
      decreases depth, 5, |ts|, 0
    {
      hide Resolve, Coherent, PlainIn, Wrote, HarmlessRefs, Harmless, StoredByName, ReferencesIn, FirstKey, SubstTokens,
        StoredInTokens, Matches, Max;
      ghost var reg, before := Reg(), cache;
      TokensStep(reg, ts, group, ns, depth);
      if HarmlessRefs(reg, ReferencesIn(ts), group, ns) {
        HarmlessTokens(reg, ts, group, ns);
      }
      var head;
      head, w := GetItem(ts[0].name, group, ns, depth);
      if head.Err? {
        HeadFails(reg, ts, group, ns, depth, w, head);
        return Err(head.error), w;
      }
      ghost var mid, w' := cache, depth;
      r, w' := SafeSubstitute(ts[1..], group, ns, depth);
      if ns.Some? && PlainIn(reg, ns) {
        WroteMore(reg, ns, StoredByName(reg, ts[0].name, group, ns, depth),
                  StoredInTokens(reg, ts[1..], group, ns, depth), before, mid, cache);
      }
      TokensMatch(reg, ts, group, ns, depth, w, w', head, r);
      w := Max(w, w');
      r := if r.Err? then r else Ok(types.show(head.value) + r.value);
    }

    // `StrSubWrapper.__getitem__`
    method GetItem(ref: string, group: Option<string>, ns: Option<View>, depth: nat) returns (r: Outcome, ghost w: nat)
      modifies this`cache
      ensures old(Coherent()) && Harmless(Reg(), FirstKey(ref, group), ns) && Harmless(Reg(), Key(None, ref), ns) ==>
        Coherent() && Matches(r, Resolve(Reg(), ref, group, ns, depth), Resolve(Reg(), ref, group, ns, w), depth, w)
      ensures ns.Some? && PlainIn(Reg(), ns) ==>
        && r == Resolve(Reg(), ref, group, ns, depth)
        && Wrote(Reg(), ns, StoredByName(Reg(), ref, group, ns, depth), old(cache), cache)
      decreases depth, 4
    {
      hide Eval, Coherent, PlanOf, Harmless, PlainIn, Uncached, Recorded, Wrote, Stored, FirstKey;
      ghost var w', reg, plain, before := depth, Reg(), ns.Some? && PlainIn(Reg(), ns), cache;
      if plain {
        PlainUncached(reg, FirstKey(ref, group), ns);
        PlainUncached(reg, Key(None, ref), ns);
      }
      r, w := Get(FirstKey(ref, group), ns, depth);
      ghost var mid := cache;
      if plain {
        RecordedWrote(reg, FirstKey(ref, group), ns, depth, before, mid);
      }
      EvalMore(reg, FirstKey(ref, group), ns, depth, Max(w, depth));
      if r == Err(NoSuchOpt) {
        r, w' := Get(Key(None, ref), ns, depth);
        if plain {
          RecordedWrote(reg, Key(None, ref), ns, depth, mid, cache);
          WroteMore(reg, ns, Stored(reg, FirstKey(ref, group), ns, depth), Stored(reg, Key(None, ref), ns, depth),
                    before, mid, cache);
        }
        EvalMore(reg, FirstKey(ref, group), ns, w, Max(w, w'));
        EvalMore(reg, Key(None, ref), ns, w', Max(w, w'));
        w := Max(w, w');
      }
      if r.Ok? && r.value.GroupAttr? {
        r := Err(GroupInTemplate);
      }
    }

    /* ---------- operations that clear the cache on normal exit ---------- */

    method RegisterOpt(opt: Opt, group: Option<string>, cli: bool) returns (r: Result<bool, OpError>)
      modifies this`opts, this`groups, this`cliOpts, this`cache
      ensures r.Ok? <==> Apply(old(Reg()), parsed, Register(opt, group, cli)).Ok?
      ensures r.Err? ==> r.error == Apply(old(Reg()), parsed, Register(opt, group, cli)).error
      ensures r.Ok? ==> Reg() == Apply(old(Reg()), parsed, Register(opt, group, cli)).value && cache == map[]
      ensures r.Ok? ==> (r.value <==> opt.dest !in GroupOf(old(Reg()), group))
      ensures r.Err? ==> Reg() == Refusal(old(Reg()), Register(opt, group, cli)) && cache == old(cache)
    {
      hide Registered, RESERVED_NAMES;
      if group.Some? {
        r := RegisterInGroup(opt, group.value, cli);
      } else {
        r := RegisterInDefault(opt, cli);
      }
      if r.Ok? {
        cache := map[];
      }
    }

    method RegisterInGroup(opt: Opt, group: string, cli: bool) returns (r: Result<bool, OpError>)
      modifies this`groups, this`cliOpts
      ensures var a := Registered(old(Reg()), opt, Some(group), cli);
        if r.Ok? then a == Ok(Reg()) && (r.value <==> opt.dest !in GroupOf(old(Reg()), Some(group)))
        else a == Err(r.error) && Reg() == Refusal(old(Reg()), Register(opt, Some(group), cli))
    {
      hide AddCliOpt;
      if group !in groups {
        groups := groups[group := map[]];
      }
      if cli {
        cliOpts := AddCliOpt(cliOpts, CliOpt(opt, Some(group)));
      }
      var g;
      r, g := RegisterIn(groups[group], opt, cli);
      if r.Ok? {
        groups := groups[group := g];
        assert groups == old(groups)[group := g];
      }
    }

    method RegisterInDefault(opt: Opt, cli: bool) returns (r: Result<bool, OpError>)
      modifies this`opts, this`cliOpts
      ensures var a := Registered(old(Reg()), opt, None, cli);
        if r.Ok? then a == Ok(Reg()) && (r.value <==> opt.dest !in old(opts))
        else a == Err(r.error) && Reg() == Refusal(old(Reg()), Register(opt, None, cli))
    {
      hide AddCliOpt;
      if opt.name in RESERVED_NAMES {
        return Err(ReservedName);
      }
      if cli {
        cliOpts := AddCliOpt(cliOpts, CliOpt(opt, None));
      }
      var g;
      r, g := RegisterIn(opts, opt, cli);
      if r.Ok? {
        opts := g;
      }
    }

    // False if the same option was registered already; another one of its name is refused.
    static method RegisterIn(g: Group, opt: Opt, cli: bool) returns (r: Result<bool, OpError>, g': Group)
      ensures r == if opt.dest !in g then Ok(true) else if g[opt.dest].opt == opt then Ok(false) else Err(DuplicateOpt)
      ensures g' == if opt.dest in g then g else g[opt.dest := Info(opt, cli, None, None)]
    {
      if opt.dest in g {
        return if g[opt.dest].opt != opt then Err(DuplicateOpt) else Ok(false), g;
      }
      return Ok(true), g[opt.dest := Info(opt, cli, None, None)];
    }

    method UnregisterOpt(dest: string, group: Option<string>) returns (r: Result<(), OpError>)
      modifies this`opts, this`groups, this`cliOpts, this`cache
      ensures r.Ok? <==> Apply(old(Reg()), parsed, Unregister(dest, group)).Ok?
      ensures r.Err? ==> r.error == Apply(old(Reg()), parsed, Unregister(dest, group)).error
      ensures r.Ok? ==> Reg() == Apply(old(Reg()), parsed, Unregister(dest, group)).value && cache == map[]
      ensures r.Err? ==> Reg() == old(Reg()) && cache == old(cache)
    {
      hide FirstCaught, PutInfo;
      if parsed {
        return Err(ArgsAlreadyParsed);
      }
      if group.Some? && group.value !in groups {
        return Err(NoGroup);
      }
      var i := FindCliOpt(dest, group);
      if i < |cliOpts| {
        if group.Some? && cliOpts[i].group.None? {
          return Err(NotInGroup);
        }
        cliOpts := cliOpts[..i] + cliOpts[i + 1..];
      }
      if group.Some? {
        groups := groups[group.value := groups[group.value] - {dest}];
      } else if dest in opts {
        opts := opts - {dest};
      }
      cache := map[];
      return Ok(());
    }

    method FindCliOpt(dest: string, group: Option<string>) returns (i: nat)
      ensures i == FirstCaught(cliOpts, dest, group)
    {
      i := 0;
      while i < |cliOpts| && !Catches(cliOpts[i], dest, group)
        invariant i <= |cliOpts|
        invariant forall j :: 0 <= j < i ==> !Catches(cliOpts[j], dest, group)
      {
        i := i + 1;
      }
    }

    // Write an option's record back where it was found.
    method Update(k: Key, info: Info)
      requires FindInfo(Reg(), k).Ok?
      modifies this`opts, this`groups, this`cache
      ensures Reg() == PutInfo(old(Reg()), k, info) && cache == map[]
    {
      if k.group.None? {
        opts := opts[k.name := info];
      } else {
        groups := groups[k.group.value := groups[k.group.value][k.name := info]];
      }
      cache := map[];
    }

    method Change(op: Op) returns (r: Result<(), OpError>)
      requires op.SetOverride? || op.SetDefault? || op.ClearOverride? || op.ClearDefault?
      modifies this`opts, this`groups, this`cache
      ensures r.Ok? <==> Apply(old(Reg()), parsed, op).Ok?
      ensures r.Err? ==> r.error == Apply(old(Reg()), parsed, op).error
      ensures r.Ok? ==> Reg() == Apply(old(Reg()), parsed, op).value && cache == map[]
      ensures r.Err? ==> Reg() == old(Reg()) && cache == old(cache)
    {
      var found := FindInfo(Reg(), op.k);
      if found.Err? {
        return Err(ToOpError(found.error));
      }
      var info := found.value;
      match op {
        case SetOverride(k, value, enforceType) =>
          var given := Given(types, info.opt, value, enforceType);
          if given.Err? { return Err(given.error); }
          Update(k, info.(override := Some(given.value)));
        case SetDefault(k, value, enforceType) =>
          var given := Given(types, info.opt, value, enforceType);
          if given.Err? { return Err(given.error); }
          Update(k, info.(default := Some(given.value)));
        case ClearOverride(k) => Update(k, info.(override := None));
        case ClearDefault(k) => Update(k, info.(default := None));
      }
      return Ok(());
    }

    // Does not clear the cache, which stays right exactly as long as no cached value's lookup comes by the new name.
    method RegisterGroup(name: string)
      modifies this`groups
      ensures Apply(old(Reg()), parsed, AddGroup(name)) == Ok(Reg())
      ensures old(Coherent()) ==>
        (Coherent() <==> name in old(groups) || !NewGroupBreaks(old(Reg()), cache, name))
    {
      hide Denotes, NewGroupBreaks;
      if name in groups {
        return;
      }
      ghost var reg := Reg();
      groups := groups[name := map[]];
      if CoherentIn(reg, cache) {
        GroupKeepsCache(reg, cache, name);
      }
    }

    /* ---------- reloading ---------- */

    /** `_validate_cli_options`: the values the view has for command-line options, by name, until one cannot be
        substituted or converted. With settings that are no templates the outcome and what it leaves in the cache
        are these. */
    method ValidateCliOptions(view: View, depth: nat) returns (r: Validity)
      modifies this`cache
      ensures PlainIn(Reg(), Some(view)) ==>
        && r == ValidatedAll(Reg(), view, depth, ByName(cliOpts))
        && Wrote(Reg(), Some(view), ValidationStores(Reg(), view, depth, ByName(cliOpts)), old(cache), cache)
    {
      hide Subst, StoredIn, Wrote, PlainIn, ByName, GetFromNamespace, RawVal, Convert;
      var os := ByName(cliOpts);
      ghost var reg, plain := Reg(), PlainIn(Reg(), Some(view));
      WroteNothing(reg, Some(view), cache);
      for i := 0 to |os|
        invariant plain ==> ValidatedAll(reg, view, depth, os[..i]).Valid?
        invariant plain ==> Wrote(reg, Some(view), ValidationStores(reg, view, depth, os[..i]), old(cache), cache)
      {
        var o := os[i];
        ghost var before := cache;
        assert os[..i + 1][..i] == os[..i];
        var raw := GetFromNamespace(o.opt, view, o.group);
        if raw.Some? {
          var v, _ := SubstituteValue(RawVal(raw.value), o.group, Some(view), depth);
          if plain {
            WroteMore(reg, Some(view), ValidationStores(reg, view, depth, os[..i]),
                      ValidationStoresOf(reg, view, depth, o), old(cache), before, cache);
            if !Validated(reg, view, depth, o).Valid? {
              FirstFault(reg, view, depth, os, i + 1);
            }
          }
          if v.Err? {
            return Raises(v.error);
          }
          if Convert(types, o.opt, v.value).Err? {
            return Exits(o);
          }
        } else {
          assert ValidationStores(reg, view, depth, os[..i + 1]) == ValidationStores(reg, view, depth, os[..i]);
        }
      }
      assert os[..|os|] == os;
      return Valid;
    }

    /** `_check_required_opts`: looks required options up one by one until one is missing or fails; `looked` are those
        that were looked up. */
    method CheckRequiredOpts(view: View, depth: nat) returns (r: Check, ghost looked: set<Key>)
      modifies this`cache
      ensures looked <= RequiredKeys(Reg()) && (r.Fine? ==> looked == RequiredKeys(Reg()))
      ensures PlainIn(Reg(), Some(view)) ==>
        && Checks(Reg(), view, depth, r, looked)
        && Wrote(Reg(), Some(view), RequiredStores(Reg(), view, depth, looked), old(cache), cache)
    {
      hide Eval, PlainIn, Wrote, Uncached, Recorded, Stored, RequiredStores, AllKeys, InfoOf, RequiredKeys, Harmless,
        CoherentIn, MustBeGiven, Matches, IsGiven, Checks, AllGiven;
      ghost var reg, plain := Reg(), PlainIn(Reg(), Some(view));
      var todo := AllKeys(Reg());
      RequiredMore(reg, view, depth, {}, Key(None, ""));
      RequiredAmong(reg);
      WroteNothing(reg, Some(view), cache);
      looked := {};
      while todo != {}
        invariant todo <= AllKeys(reg) && looked == RequiredKeys(reg) - todo
        invariant plain ==> forall k :: k in looked ==> IsGiven(reg, view, depth, k)
        invariant plain ==> Wrote(reg, Some(view), RequiredStores(reg, view, depth, looked), old(cache), cache)
        decreases |todo|
      {
        ghost var before, looked' := cache, looked;
        var k :| k in todo;
        RequiredRest(reg, todo, k);
        todo := todo - {k};
        if MustBeGiven(InfoOf(Reg(), k)) {
          var v, _ := Get(k, Some(view), depth);
          looked := looked' + {k};
          if plain {
            PlainUncached(reg, k, Some(view));
            RequiredWrote(reg, view, depth, looked', k, old(cache), before, cache);
          }
          CheckedOne(reg, view, depth, k, looked);
          if v.Err? {
            return Failed(v.error), looked;
          }
          if v.value == NoneVal {
            return Missing(k), looked;
          }
        }
      }
      CheckedAll(reg, view, depth);
      return Fine, looked;
    }

    /** `_reload_config_files`: validation, then the files that were not found, then the required options. */
    method LoadConfigFiles(files: Parsed, depth: nat) returns (r: Result<View, LoadError>, ghost looked: set<Key>)
      modifies this`cache
      ensures r.Ok? ==> files.Parsed? && r.value == files.view
      ensures files.Unparsed? ==> r == Err(Unreadable) && looked == {} && cache == old(cache)
      ensures looked <= RequiredKeys(Reg())
      ensures files.Parsed? && PlainIn(Reg(), Some(files.view)) ==>
        && Loads(Reg(), files, depth, r, looked)
        && Wrote(Reg(), Some(files.view), LoadStores(Reg(), files.view, depth, looked), old(cache), cache)
    {
      hide ValidatedAll, ValidationStores, RequiredStores, Wrote, PlainIn, ByName, RequiredKeys, Checks;
      looked := {};
      if files.Unparsed? {
        return Err(Unreadable), looked;
      }
      ghost var reg, ns, before := Reg(), Some(files.view), cache;
      NoneRequired(reg, files.view, depth);
      var v := ValidateCliOptions(files.view, depth);
      match v {
        case Exits(o) => return Err(BadArgument(o)), looked;
        case Raises(e) => return Err(LookupFailed(e)), looked;
        case Valid =>
      }
      if files.missing != [] {
        return Err(FilesMissing(files.missing)), looked;
      }
      ghost var mid := cache;
      var check;
      check, looked := CheckRequiredOpts(files.view, depth);
      if PlainIn(reg, ns) {
        WroteMore(reg, ns, ValidationStores(reg, files.view, depth, ByName(cliOpts)),
                  RequiredStores(reg, files.view, depth, looked), before, mid, cache);
      }
      r := if check.Fine? then Ok(files.view) else Err(CheckError(check));
    }

    /** False when the files cannot be used, in which case the old ones stay. A plain ValueError and the recursion limit
        are not caught, and then the cache is left as it is: still right exactly when what was looked up has the values
        of the files in effect. */
    method ReloadConfigFiles(files: Parsed, depth: nat) returns (r: Result<bool, Error>, ghost looked: set<Key>)
      modifies this`namespace, this`cache
      ensures r.Ok? ==> cache == map[]
      ensures r == Ok(true) ==> files.Parsed? && Reg() == old(Reg()).(namespace := Some(files.view))
      ensures r != Ok(true) ==> Reg() == old(Reg())
      ensures files.Unparsed? ==> r == Ok(false)
      ensures r.Err? ==> r.error == BadValue || r.error == RecursionLimit
      ensures files.Parsed? && PlainIn(old(Reg()), Some(files.view)) ==>
        (r == Ok(true) <==> Accepted(old(Reg()), files, depth))
      ensures files.Parsed? && PlainIn(old(Reg()), Some(files.view)) ==>
        exists load :: Loads(old(Reg()), files, depth, load, looked) && r == ReloadOutcome(load)
      ensures r.Err? && PlainIn(Reg(), Some(files.view)) ==>
        && Loads(Reg(), files, depth, Err(LookupFailed(r.error)), looked)
        && Wrote(Reg(), Some(files.view), LoadStores(Reg(), files.view, depth, looked), old(cache), cache)
      ensures r.Err? && PlainIn(Reg(), Some(files.view)) && old(Coherent()) ==>
        (Coherent() <==>
          forall k :: k in LoadStores(Reg(), files.view, depth, looked) ==> Alike(Reg(), k, Some(files.view)))
    {
      hide Loads, LoadStores, Wrote, PlainIn, Alike, Denotes, RequiredKeys;
      var load;
      load, looked := LoadConfigFiles(files, depth);
      ghost var reg := Reg();
      if files.Parsed? && PlainIn(reg, Some(files.view)) {
        LoadsIff(reg, files, depth, load, looked);
      }
      if load.Err? && load.error.LookupFailed? && (load.error.error == BadValue || load.error.error == RecursionLimit) {
        if PlainIn(reg, Some(files.view)) && old(Coherent()) {
          LoadedCache(reg, reg, files.view, LoadStores(reg, files.view, depth, looked), old(cache), cache);
        }
        return Err(load.error.error), looked;
      }
      if load.Ok? {
        namespace := Some(load.value);
      }
      cache := map[];
      r := Ok(load.Ok?);
    }

    method DiffNs(before: View, after: View) returns (diff: Diff)
      ensures IsDiff(Reg(), AllKeys(Reg()), before, after, diff)
    {
      hide RawOf, InfoOf, Differs, AllKeys, IsDiff, DiffKeyOf;
      diff := map[];
      var reg := Reg();
      var all := AllKeys(reg);
      var todo := all;
      NothingDiffers(reg, before, after);
      assert all - todo == {};
      while todo != {}
        invariant todo <= all
        invariant IsDiff(reg, all - todo, before, after, diff)
        decreases |todo|
      {
        var k :| k in todo;
        ghost var done, diff0 := all - todo, diff;
        todo := todo - {k};
        assert all - todo == done + {k};
        if Differs(reg, k, before, after) {
          diff := diff[DiffKeyOf(reg, k) := (RawOf(reg, k, before), RawOf(reg, k, after))];
        }
        DiffMore(reg, done, k, before, after, diff0, diff);
      }
      assert all - todo == all;
    }

    /** Mutates, or refuses and keeps the registry; `looked` are the required options that were looked up in the new
        files. The cache is right afterwards, in either case, exactly when everything that validation and the required
        options looked up has the value in the new files that is in effect. After a success only an immutable option
        can fail to. */
    method MutateConfigFiles(files: Parsed, depth: nat) returns (r: Result<Diff, LoadError>, ghost looked: set<Key>)
      requires namespace.Some?
      modifies this`mutableNs, this`cache
      ensures r.Err? ==> Reg() == old(Reg())
      ensures r.Ok? ==> files.Parsed? && Reg() == old(Reg()).(mutableNs := Some(files.view))
      ensures r.Ok? ==>
        IsDiff(Reg(), AllKeys(Reg()), (if old(mutableNs).Some? then old(mutableNs) else namespace).value,
               files.view, r.value)
      ensures r.Ok? && DistinctNames(Reg()) ==>
        forall k :: FindInfo(Reg(), k).Ok? ==>
          ReportedExactly(Reg(), k, (if old(mutableNs).Some? then old(mutableNs) else namespace).value, files.view,
                          r.value)
      ensures files.Unparsed? ==> r == Err(Unreadable) && cache == map[]
      ensures files.Parsed? && PlainIn(old(Reg()), Some(files.view)) ==>
        && (r.Ok? <==> Accepted(old(Reg()), files, depth))
        && (r.Ok? ==> looked == RequiredKeys(old(Reg())))
        && (r.Err? ==> Loads(Reg(), files, depth, Err(r.error), looked))
        && Wrote(old(Reg()), Some(files.view), LoadStores(old(Reg()), files.view, depth, looked), map[], cache)
      ensures files.Parsed? && PlainIn(old(Reg()), Some(files.view)) ==>
        (Coherent() <==>
          forall k :: k in LoadStores(old(Reg()), files.view, depth, looked) ==> Alike(Reg(), k, Some(files.view)))
      ensures r.Ok? ==> forall k :: IsMutable(Reg(), k) ==> Alike(Reg(), k, Some(files.view))
    {
      hide Loads, LoadStores, Wrote, PlainIn, Alike, Denotes, RequiredKeys, IsDiff, AllKeys, Accepted, IsMutable,
        ReportedExactly, DistinctNames;
      cache := map[];
      var before := if mutableNs.Some? then mutableNs.value else namespace.value;
      ghost var reg := Reg();
      var load;
      load, looked := LoadConfigFiles(files, depth);
      if files.Parsed? && PlainIn(reg, Some(files.view)) {
        LoadsIff(reg, files, depth, load, looked);
      }
      if load.Err? {
        if files.Parsed? && PlainIn(reg, Some(files.view)) {
          LoadedCache(reg, reg, files.view, LoadStores(reg, files.view, depth, looked), map[], cache);
        }
        return Err(load.error), looked;
      }
      mutableNs := Some(load.value);
      if PlainIn(reg, Some(files.view)) {
        LoadedCache(reg, Reg(), files.view, LoadStores(reg, files.view, depth, looked), map[], cache);
      }
      MutableAlike(Reg(), files.view);
      var diff := DiffNs(before, files.view);
      if DistinctNames(Reg()) {
        DiffReports(Reg(), before, files.view, diff);
      }
      r := Ok(diff);
    }
  }

  // A mutable option reads the mutable namespace when there is one.
  lemma MutableAlike(reg: Registry, view: View)
    requires reg.mutableNs == Some(view)
    ensures forall k :: IsMutable(reg, k) ==> Alike(reg, k, Some(view))
  {
    hide Alike;
    forall k | IsMutable(reg, k) ensures Alike(reg, k, Some(view)) {
      ReadsAlike(reg, k, Some(view));
    }
  }

  lemma NothingDiffers(reg: Registry, before: View, after: View)
    ensures IsDiff(reg, {}, before, after, map[])
  {
  }

  lemma DiffMore(reg: Registry, done: set<Key>, k: Key, before: View, after: View, diff: Diff, diff': Diff)
    requires done + {k} <= AllKeys(reg) && IsDiff(reg, done, before, after, diff)
    requires diff' == if Differs(reg, k, before, after)
                      then diff[DiffKeyOf(reg, k) := (RawOf(reg, k, before), RawOf(reg, k, after))] else diff
    ensures IsDiff(reg, done + {k}, before, after, diff')
  {
    hide RawOf, InfoOf;
    forall d | d in diff'
      ensures exists k' :: k' in done + {k} && Differs(reg, k', before, after) && DiffKeyOf(reg, k') == d
                && diff'[d] == (RawOf(reg, k', before), RawOf(reg, k', after))
    {
      if Differs(reg, k, before, after) && d == DiffKeyOf(reg, k) {
        assert k in done + {k};
      } else {
        var k' :| k' in done && Differs(reg, k', before, after) && DiffKeyOf(reg, k') == d
          && diff[d] == (RawOf(reg, k', before), RawOf(reg, k', after));
        assert k' in done + {k};
      }
    }
  }

  lemma ConvertErrors(types: Types, opt: Opt, v: Val)
    ensures Convert(types, opt, v).Err? ==> Convert(types, opt, v).error == BadValue
  {
  }

  lemma NoDepth(reg: Registry, k: Key, ns: Option<View>)
    ensures Hit(Eval(reg, k, ns, 0))
  {
  }

  lemma EvalPlan(reg: Registry, k: Key, ns: Option<View>, d: nat)
    requires d > 0
    ensures var p := PlanOf(reg, k, ns);
            && (p.Done? ==> Eval(reg, k, ns, d) == p.outcome)
            && (p.Substitute? ==>
                  Eval(reg, k, ns, d) == Finished(reg.types, p.finish, Subst(reg, p.value, p.group, p.ns, d - 1)))
            && (p.Substitute? && p.finish.AsIs? ==> Eval(reg, k, ns, d) == Subst(reg, p.value, p.group, p.ns, d - 1))
  {
    hide PlanOf, Subst;
  }

  lemma ListReferences(items: seq<Val>)
    ensures References(Lst(items)) == {} ==> forall i :: 0 <= i < |items| ==> References(items[i]) == {}
  {
    forall i | 0 <= i < |items| && References(Lst(items)) == {} ensures References(items[i]) == {} {
      assert forall r :: r in References(items[i]) ==> r in References(Lst(items));
    }
  }
}
