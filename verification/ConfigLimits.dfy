/** Concrete configurations that show why lookups need the conditions stated for them. */
module ConfigLimits {
  import opened Wrappers
  import opened ConfigFiles
  import opened Options
  import opened Template
  import opened Registry
  import opened Storing
  import opened ConfigEngine
  import opened Sorting

  // A type that accepts every value as it is.
  const ANY_TYPE := Types((typ: nat, v: Val) => Some(v), (v: Val) => if v.Str? then v.text else "")

  function Declared(name: string, default: Val): Info {
    Info(Opt(name, name, 0, default, false, false, false, false, []), false, None, None)
  }

  function Base(opts: Group, groups: map<string, Group>): Registry {
    Registry(ANY_TYPE, opts, groups, [], None, None, false)
  }

  lemma OneToken(reg: Registry, name: string, group: Option<string>, ns: Option<View>, d: nat)
    requires Identifier(name)
    ensures Subst(reg, Str("$" + name), group, ns, d) ==
            var r := Shown(reg.types, Resolve(reg, name, group, ns, d));
            if r.Ok? then Ok(Str(r.value)) else Err(r.error)
  {
    hide Resolve;
    OneReference(name);
    var ts := [Reference(name)];
    assert ts[1..] == [];
    assert SubstTokens(reg, ts[1..], group, ns, d) == Ok("");
    var r := Shown(reg.types, Resolve(reg, name, group, ns, d));
    assert r.Ok? ==> r.value + "" == r.value;
  }

  lemma DefaultEval(reg: Registry, k: Key, v: Val, d: nat)
    requires d > 0 && reg.types == ANY_TYPE && reg.namespace.None? && reg.mutableNs.None? && !reg.validateDefaults
    requires !(k.group.None? && k.name in reg.groups)
    requires v != NoneVal && FindInfo(reg, k) == Ok(Declared(k.name, v))
    ensures Eval(reg, k, None, d) == Subst(reg, v, k.group, None, d - 1)
  {
    hide FindInfo, Subst;
  }

  // An option whose default refers to the option itself: no depth suffices.
  lemma {:induction false} SelfReference(d: nat)
    ensures var reg := Base(map["a" := Declared("a", Str("$a"))], map[]);
            Hit(Eval(reg, Key(None, "a"), None, d))
  {
    hide Subst, SubstTokens, Tokens;
    var reg := Base(map["a" := Declared("a", Str("$a"))], map[]);
    if d > 0 {
      SelfReference(d - 1);
      DefaultEval(reg, Key(None, "a"), Str("$a"), d);
      OneToken(reg, "a", None, None, d - 1);
      assert "$a" == "$" + "a";
      assert FirstKey("a", None) == Key(None, "a");
    }
  }

  // Registering a group named like an option makes a cached value of that option wrong.
  lemma GroupNamedLikeOption(d: nat)
    requires d > 0
    ensures var reg := Base(map["g" := Declared("g", Str("v"))], map[]);
            var reg' := reg.(groups := map["g" := map[]]);
            && Eval(reg, Key(None, "g"), None, d) == Ok(Str("v"))
            && !Denotes(reg', Key(None, "g"), Str("v"))
  {
    hide Subst, Tokens, Unescape;
    var reg := Base(map["g" := Declared("g", Str("v"))], map[]);
    DefaultEval(reg, Key(None, "g"), Str("v"), d);
    TokensPlain("v");
    PlainText(reg, "v", None, None, d - 1);
    NoDepth(reg.(groups := map["g" := map[]]), Key(None, "g"), None);
  }

  // Options y and x of group G and x of DEFAULT, with x of G referring to a name nobody registered.
  function Fallback(): Registry {
    Base(map["x" := Declared("x", Str("spare"))],
         map["G" := map["x" := Declared("x", Str("$nope")), "y" := Declared("y", Str("$x"))]])
  }

  lemma ReferenceOf(name: string)
    requires Identifier(name)
    ensures References(Str("$" + name)) == {name}
  {
    OneReference(name);
  }

  // The lookups that an option of a registry without files starts next.
  lemma DefaultNext(reg: Registry, k: Key, v: Val)
    requires reg.namespace.None? && reg.mutableNs.None? && v != NoneVal && !(k.group.None? && k.name in reg.groups)
    requires FindInfo(reg, k) == Ok(Declared(k.name, v))
    ensures Next(reg, Node(k, None)) ==
      (set r | r in References(v) :: Node(FirstKey(r, k.group), None))
      + (set r | r in References(v) :: Node(Key(None, r), None))
  {
    hide FindInfo, References, FirstKey;
  }

  lemma FallbackNext(k: Key)
    ensures Next(Fallback(), Node(k, None)) ==
      if k == Key(Some("G"), "y") then {Node(Key(Some("G"), "x"), None), Node(Key(None, "x"), None)}
      else if k == Key(Some("G"), "x") then {Node(Key(Some("G"), "nope"), None), Node(Key(None, "nope"), None)}
      else {}
  {
    hide References, FirstKey;
    var reg := Fallback();
    if k == Key(Some("G"), "y") {
      DefaultNext(reg, k, Str("$x"));
      ReferenceOf("x");
      assert "$x" == "$" + "x";
      NoDot("x", Some("G"));
    } else if k == Key(Some("G"), "x") {
      DefaultNext(reg, k, Str("$nope"));
      ReferenceOf("nope");
      assert "$nope" == "$" + "nope";
      NoDot("nope", Some("G"));
    } else if k == Key(None, "x") {
      DefaultNext(reg, k, Str("spare"));
      assert References(Str("spare")) == {} by { PlainReferences("spare"); }
    }
  }

  lemma PlainReferences(s: string)
    requires Plain(s)
    ensures References(Str(s)) == {}
  {
    TokensPlain(s);
  }

  // Its references have no cycle, so every lookup in it ends.
  lemma FallbackAcyclic() returns (rank: Node -> nat)
    ensures Acyclic(Fallback(), rank)
  {
    hide Next, PlanOf;
    rank := (n: Node) => if n.key == Key(Some("G"), "y") then 2 else if n.key == Key(Some("G"), "x") then 1 else 0;
    forall n: Node, m | InUse(Fallback(), n.ns) && m in Next(Fallback(), n) ensures rank(m) < rank(n) {
      FallbackNext(n.key);
      assert n == Node(n.key, None);
    }
  }

  // A name that is neither an option nor a group.
  lemma Unknown(reg: Registry, name: string, group: Option<string>, d: nat)
    requires d > 0 && '.' !in name && name !in reg.opts && name !in reg.groups
    requires group.Some? ==> group.value in reg.groups && name !in reg.groups[group.value]
    ensures Resolve(reg, name, group, None, d) == Err(NoSuchOpt)
  {
    NoDot(name, group);
  }

  lemma FallbackValue(d: nat)
    requires d >= 4
    ensures Eval(Fallback(), Key(Some("G"), "y"), None, d) == Ok(Str("spare"))
  {
    hide Subst, Resolve, Eval, Tokens, Unescape;
    var reg, G := Fallback(), Some("G");
    DefaultEval(reg, Key(G, "y"), Str("$x"), d);
    OneToken(reg, "x", G, None, d - 1);
    assert "$x" == "$" + "x";
    DefaultEval(reg, Key(G, "x"), Str("$nope"), d - 1);
    OneToken(reg, "nope", G, None, d - 2);
    assert "$nope" == "$" + "nope";
    Unknown(reg, "nope", G, d - 2);
    DefaultEval(reg, Key(None, "x"), Str("spare"), d - 1);
    PlainText(reg, "spare", None, None, d - 2);
    SecondKey(reg, "x", G, d - 1);
  }

  lemma SecondKey(reg: Registry, ref: string, group: Option<string>, d: nat)
    requires '.' !in ref && Eval(reg, Key(group, ref), None, d) == Err(NoSuchOpt)
    requires Eval(reg, Key(None, ref), None, d).Ok? && !Eval(reg, Key(None, ref), None, d).value.GroupAttr?
    ensures Resolve(reg, ref, group, None, d) == Eval(reg, Key(None, ref), None, d)
  {
    hide Eval;
    NoDot(ref, group);
  }

  lemma NoDot(ref: string, group: Option<string>)
    requires '.' !in ref
    ensures FirstKey(ref, group) == Key(group, ref)
  {
  }

  // The missing name inside x of G is taken for x missing in G, so y falls back to DEFAULT. A new group
  // of that name turns the lookup into an error, although no option is named like the group.
  lemma GroupMentionedBySwallowedReference(d: nat)
    requires d >= 4
    ensures var reg := Fallback();
            var reg' := reg.(groups := reg.groups["nope" := map[]]);
            && "nope" !in reg.opts
            && Eval(reg, Key(Some("G"), "y"), None, d) == Ok(Str("spare"))
            && Eval(reg', Key(Some("G"), "y"), None, d) == Err(GroupInTemplate)
            && !Denotes(reg', Key(Some("G"), "y"), Str("spare"))
  {
    hide Subst, Resolve, Eval, Tokens, Unescape;
    FallbackValue(d);
    var reg := Fallback();
    var reg' := reg.(groups := reg.groups["nope" := map[]]);
    var G := Some("G");
    DefaultEval(reg', Key(G, "y"), Str("$x"), d);
    OneToken(reg', "x", G, None, d - 1);
    assert "$x" == "$" + "x";
    DefaultEval(reg', Key(G, "x"), Str("$nope"), d - 1);
    OneToken(reg', "nope", G, None, d - 2);
    assert "$nope" == "$" + "nope";
    NewGroupName(reg', "nope", G, d - 2);
    FirstKeyFails(reg', "x", G, d - 1, GroupInTemplate);
    SettledOutcome(reg', Key(G, "y"), d, Err(GroupInTemplate), Str("spare"));
  }

  lemma NewGroupName(reg: Registry, name: string, group: Option<string>, d: nat)
    requires d > 0 && '.' !in name && name in reg.groups
    requires group.Some? && group.value in reg.groups && name !in reg.groups[group.value]
    ensures Resolve(reg, name, group, None, d) == Err(GroupInTemplate)
  {
    NoDot(name, group);
  }

  lemma FirstKeyFails(reg: Registry, ref: string, group: Option<string>, d: nat, e: Error)
    requires '.' !in ref && e != NoSuchOpt && Eval(reg, Key(group, ref), None, d) == Err(e)
    ensures Resolve(reg, ref, group, None, d) == Err(e)
  {
    hide Eval;
    NoDot(ref, group);
  }

  /* ---------- mutation ---------- */

  // An option of DEFAULT without a declared default.
  function Bare(name: string, mutable: bool, required: bool): Opt {
    Opt(name, name, 0, NoneVal, false, false, mutable, required, [])
  }

  function Entered(opt: Opt, override: Option<Val>): Info {
    Info(opt, false, override, None)
  }

  function Values(values: map<string, string>): View {
    View([], map n | n in values :: n := One(values[n]))
  }

  function Holding(opts: Group, cliOpts: seq<CliOpt>, namespace: View): Registry {
    Registry(ANY_TYPE, opts, map[], cliOpts, Some(namespace), None, false)
  }

  lemma BareFrom(name: string, mutable: bool, required: bool, values: map<string, string>)
    ensures GetFromNamespace(Bare(name, mutable, required), Values(values), None)
         == if name in values then Some(One(values[name])) else None
  {
    var opt := Bare(name, mutable, required);
    var names: seq<OptName> := [(None, name)];
    assert NamesOf(opt, None) == names;
    assert names[1..] == [] && names[0] == (None, name);
    assert FileLookup([], names, false) == None;
    assert name in Values(values).cli <==> name in values;
    assert Attribute(names[0]) == name;
    assert CliLookup(Values(values).cli, names, false) == if name in values then Some(One(values[name])) else None;
  }

  // What looking such an option up where it has a value leads to.
  lemma BarePlan(reg: Registry, name: string, ns: Option<View>, values: map<string, string>)
    requires name in reg.opts && name !in reg.groups && reg.opts[name].override.None? && name in values
    requires reg.opts[name].opt == Bare(name, reg.opts[name].opt.mutable, reg.opts[name].opt.required)
    requires Effective(reg, reg.opts[name].opt, ns) == Some(Values(values))
    ensures PlanOf(reg, Key(None, name), ns)
         == Substitute(Str(values[name]), None, Some(Values(values)), Converted(reg.opts[name].opt, true))
  {
    hide Values, GetFromNamespace;
    BareFrom(name, reg.opts[name].opt.mutable, reg.opts[name].opt.required, values);
  }

  lemma BareValue(reg: Registry, name: string, ns: Option<View>, values: map<string, string>, d: nat)
    requires name in reg.opts && name !in reg.groups && reg.opts[name].override.None? && name in values
    requires reg.opts[name].opt == Bare(name, reg.opts[name].opt.mutable, reg.opts[name].opt.required)
    requires Effective(reg, reg.opts[name].opt, ns) == Some(Values(values))
    requires d > 0 && reg.types == ANY_TYPE && Plain(values[name])
    ensures Eval(reg, Key(None, name), ns, d) == Ok(Str(values[name]))
  {
    hide Values, Subst, PlanOf, Effective;
    BarePlan(reg, name, ns, values);
    EvalPlan(reg, Key(None, name), ns, d);
    PlainText(reg, values[name], None, Some(Values(values)), d - 1);
  }

  // An option looked up in ns, whose value there is not the one in effect.
  lemma NotAlike(reg: Registry, k: Key, ns: Option<View>, v: Val, v': Val, d: nat)
    requires Eval(reg, k, ns, d) == Ok(v) && Eval(reg, k, None, d) == Ok(v') && v != v'
    ensures !Alike(reg, k, ns)
  {
    hide Eval;
    assert Finds(reg, k, ns, v);
    SettledOutcome(reg, k, d, Ok(v'), v);
  }

  lemma NoSettings(reg: Registry, ns: Option<View>)
    requires reg.groups == map[] && forall n :: n in reg.opts ==> reg.opts[n].default.None?
    requires forall n :: n in reg.opts && reg.opts[n].override.Some? ==> References(reg.opts[n].override.value) == {}
    ensures PlainIn(reg, ns)
  {
    hide GetFromNamespace, References;
  }

  // An option k that must be given, with its value in the running files.
  function RequiredOption(mutable: bool): Registry {
    Holding(map["k" := Entered(Bare("k", mutable, true), None)], [], Values(map["k" := "old"]))
  }

  // Options of DEFAULT only, with the required ones among them.
  lemma DefaultRequired(reg: Registry)
    requires reg.groups == map[]
    ensures forall k :: k in RequiredKeys(reg) <==> k.group.None? && k.name in reg.opts && MustBeGiven(reg.opts[k.name])
  {
    hide MustBeGiven;
    forall k ensures k in RequiredKeys(reg) <==> k.group.None? && k.name in reg.opts && MustBeGiven(reg.opts[k.name]) {
      AllKeysFound(reg, k);
    }
  }

  lemma OnlyRequired(mutable: bool, view: View, d: nat)
    ensures RequiredKeys(RequiredOption(mutable)) == {Key(None, "k")}
    ensures RequiredStores(RequiredOption(mutable), view, d, {Key(None, "k")})
         == Stored(RequiredOption(mutable), Key(None, "k"), Some(view), d)
    ensures AllValid(RequiredOption(mutable), view, d)
  {
    hide Stored, RequiredKeys, RequiredStores, Validated, Values;
    var reg := RequiredOption(mutable);
    DefaultRequired(reg);
    RequiredMore(reg, view, d, {}, Key(None, "k"));
    assert {} + {Key(None, "k")} == {Key(None, "k")};
  }

  /** The required-option check of `mutate_config_files` caches the new value of an immutable option, so that a later
      lookup returns "new" where the option should have kept "old". */
  lemma RequiredOptionLeaks(d: nat)
    requires d > 0
    ensures var reg, k, files := RequiredOption(false), Key(None, "k"), Parsed(Values(map["k" := "new"]), []);
            var reg', keys := reg.(mutableNs := Some(files.view)), LoadStores(reg, files.view, d, RequiredKeys(reg));
            && Accepted(reg, files, d) && PlainIn(reg, Some(files.view))
            && Eval(reg', k, None, d) == Ok(Str("old"))
            && k in keys && !Alike(reg', k, Some(files.view))
  {
    hide Eval, PlanOf, Values, PlainIn, RequiredKeys, RequiredStores, ValidationStores, ByName, AllKeys, AllValid;
    var reg, k, new' := RequiredOption(false), Key(None, "k"), map["k" := "new"];
    var ns := Some(Values(new'));
    var reg' := reg.(mutableNs := ns);
    OnlyRequired(false, ns.value, d);
    NoSettings(reg, ns);
    BareValue(reg, "k", ns, new', d);
    BareValue(reg', "k", ns, new', d);
    BareValue(reg', "k", None, map["k" := "old"], d);
    NotAlike(reg', k, ns, Str("new"), Str("old"), d);
  }

  /** A mutation to files without a required option is refused, but the check has cached None for the option by then: a
      later lookup returns None where the running files have "old", for a mutable option as for an immutable one. */
  lemma RejectedMutationLeaks(mutable: bool, d: nat)
    requires d > 0
    ensures var reg, k, files := RequiredOption(mutable), Key(None, "k"), Parsed(Values(map[]), []);
            && !Accepted(reg, files, d) && PlainIn(reg, Some(files.view))
            && Eval(reg, k, Some(files.view), d) == Ok(NoneVal) && Eval(reg, k, None, d) == Ok(Str("old"))
            && k in LoadStores(reg, files.view, d, {k}) && !Alike(reg, k, Some(files.view))
  {
    hide Eval, Values, PlainIn, RequiredKeys, RequiredStores, ValidationStores, ByName, AllKeys, AllValid;
    var reg, k, ns := RequiredOption(mutable), Key(None, "k"), Some(Values(map[]));
    OnlyRequired(mutable, ns.value, d);
    NoSettings(reg, ns);
    BareFrom("k", mutable, true, map[]);
    EvalPlan(reg, k, ns, d);
    BareValue(reg, "k", None, map["k" := "old"], d);
    NotAlike(reg, k, ns, NoneVal, Str("old"), d);
    assert !IsGiven(reg, ns.value, d, k);
  }

  /* ---------- validation ---------- */

  // A command-line option c, which may be overridden, and an immutable option x; nothing is required.
  function CommandLineOption(override: Option<Val>): Registry {
    Holding(map["c" := Entered(Bare("c", false, false), override), "x" := Entered(Bare("x", false, false), None)],
            [CliOpt(Bare("c", false, false), None)], Values(map["x" := "old"]))
  }

  // New files in which the value of c refers to x.
  function NewFiles(c: string): map<string, string> {
    map["c" := c, "x" := "new"]
  }

  lemma SortedOne(o: CliOpt)
    ensures ByName([o]) == [o]
  {
    hide Sorted;
    SortedMembers([o], (o: CliOpt) => o.opt.name);
    var r := ByName([o]);
    assert o in r && r == [r[0]];
  }

  lemma ValidatesOne(override: Option<Val>, view: View, d: nat)
    ensures var reg, o := CommandLineOption(override), CliOpt(Bare("c", false, false), None);
            && RequiredKeys(reg) == {}
            && ValidatedAll(reg, view, d, ByName(reg.cliOpts)) == Validated(reg, view, d, o)
            && LoadStores(reg, view, d, {}) == ValidationStoresOf(reg, view, d, o)
  {
    hide Validated, ValidationStoresOf, Values, ByName, RequiredKeys, LoadStores;
    var reg, o := CommandLineOption(override), CliOpt(Bare("c", false, false), None);
    DefaultRequired(reg);
    NoneRequired(reg, view, d);
    SortedOne(o);
    assert [o][..0] == [];
    assert {} + ValidationStoresOf(reg, view, d, o) == ValidationStoresOf(reg, view, d, o);
  }

  lemma XResolved(reg: Registry, override: Option<Val>, c: string, d: nat)
    requires d > 0 && SameOptions(CommandLineOption(override), reg)
    ensures var ns := Some(Values(NewFiles(c)));
            && Eval(reg, Key(None, "x"), ns, d) == Ok(Str("new"))
            && Resolve(reg, "x", None, ns, d) == Ok(Str("new"))
            && Key(None, "x") in StoredByName(reg, "x", None, ns, d)
  {
    hide Eval, Values;
    BareValue(reg, "x", Some(Values(NewFiles(c))), NewFiles(c), d);
    NoDot("x", None);
  }

  lemma Leaks(override: Option<Val>, reg': Registry, c: string, d: nat)
    requires d > 0 && SameOptions(CommandLineOption(override), reg')
    requires reg'.namespace == Some(Values(map["x" := "old"]))
    ensures Eval(reg', Key(None, "x"), None, d) == Ok(Str("old"))
    ensures !Alike(reg', Key(None, "x"), Some(Values(NewFiles(c))))
  {
    hide Eval, Values;
    XResolved(reg', override, c, d);
    BareValue(reg', "x", None, map["x" := "old"], d);
    NotAlike(reg', Key(None, "x"), Some(Values(NewFiles(c))), Str("new"), Str("old"), d);
  }

  /** A mutation that is accepted validates the new value "$x" of a command-line option, even one that is overridden,
      and so caches the new value of the immutable x that it refers to. */
  lemma ValidationLeaks(override: Option<Val>, d: nat)
    requires d > 0 && (override.Some? ==> References(override.value) == {})
    ensures var reg, x, files := CommandLineOption(override), Key(None, "x"), Parsed(Values(NewFiles("$x")), []);
            var reg' := reg.(mutableNs := Some(files.view));
            && Accepted(reg, files, d) && PlainIn(reg, Some(files.view))
            && Eval(reg', x, None, d) == Ok(Str("old"))
            && x in LoadStores(reg, files.view, d, {}) && !Alike(reg', x, Some(files.view))
  {
    hide Eval, Values, PlainIn, Resolve, RequiredKeys, ByName, LoadStores, StoredByName, AllValid, ValidatedAll, Alike,
      Subst, StoredIn;
    var reg, view := CommandLineOption(override), Values(NewFiles("$x"));
    ValidatesOne(override, view, d);
    AllValidIff(reg, view, d);
    NoSettings(reg, Some(view));
    BareFrom("c", false, false, NewFiles("$x"));
    XResolved(reg, override, "$x", d);
    XToken(reg, Some(view), d);
    Leaks(override, reg.(mutableNs := Some(view)), "$x", d);
  }

  lemma XToken(reg: Registry, ns: Option<View>, d: nat)
    requires Resolve(reg, "x", None, ns, d).Ok?
    ensures Subst(reg, Str("$x"), None, ns, d) == Ok(Str(reg.types.show(Resolve(reg, "x", None, ns, d).value)))
    ensures StoredByName(reg, "x", None, ns, d) <= StoredIn(reg, Str("$x"), None, ns, d)
  {
    hide Resolve, StoredByName, Tokens, Unescape, SubstTokens, StoredInTokens;
    var ts := [Reference("x")];
    assert "$x" == "$" + "x";
    OneReference("x");
    OneToken(reg, "x", None, ns, d);
    assert ts[1..] == [];
    TokensStep(reg, ts, None, ns, d);
    NoTokens(reg, None, ns, d);
    ValueStep(reg, Str("$x"), None, ns, d);
  }

  // Two references with nothing between them.
  lemma TwoReferences(a: string, b: string)
    requires Identifier(a) && Identifier(b)
    ensures TokensOf("$" + a + "$" + b) == [Reference(a), Reference(b)]
  {
    hide Tokens, Unescape;
    LongestName(a, "$" + b);
    OneReference(b);
    assert "$" + a + ("$" + b) == "$" + a + "$" + b;
    assert [Reference(a)] + [Reference(b)] == [Reference(a), Reference(b)];
  }

  lemma Unresolved(reg: Registry, name: string, ns: Option<View>, d: nat)
    requires d > 0 && '.' !in name && name !in reg.opts && name !in reg.groups
    ensures Resolve(reg, name, None, ns, d) == Err(NoSuchOpt)
  {
    NoDot(name, None);
  }

  lemma TwoTokens(reg: Registry, ns: Option<View>, d: nat)
    requires Resolve(reg, "x", None, ns, d).Ok? && Resolve(reg, "nope", None, ns, d) == Err(NoSuchOpt)
    ensures Subst(reg, Str("$x$nope"), None, ns, d) == Err(NoSuchOpt)
    ensures StoredByName(reg, "x", None, ns, d) <= StoredIn(reg, Str("$x$nope"), None, ns, d)
  {
    hide Resolve, StoredByName, Tokens, Unescape, SubstTokens, StoredInTokens;
    var ts := [Reference("x"), Reference("nope")];
    assert "$x$nope" == "$" + "x" + "$" + "nope";
    TwoReferences("x", "nope");
    assert ts[1..] == [Reference("nope")];
    TokensStep(reg, ts, None, ns, d);
    TokensStep(reg, ts[1..], None, ns, d);
    ValueStep(reg, Str("$x$nope"), None, ns, d);
  }

  /** A mutation whose validation fails at a name nobody registered is refused, but has cached the new value of the
      option that the text refers to before it. */
  lemma RefusedValidationLeaks(d: nat)
    requires d > 0
    ensures var reg, x, files := CommandLineOption(None), Key(None, "x"), Parsed(Values(NewFiles("$x$nope")), []);
            && ValidatedAll(reg, files.view, d, ByName(reg.cliOpts)) == Raises(NoSuchOpt)
            && !Accepted(reg, files, d) && PlainIn(reg, Some(files.view))
            && Eval(reg, x, None, d) == Ok(Str("old"))
            && x in LoadStores(reg, files.view, d, {}) && !Alike(reg, x, Some(files.view))
  {
    hide Eval, Values, PlainIn, Resolve, RequiredKeys, ByName, LoadStores, StoredByName, AllValid, ValidatedAll, Alike,
      Subst, StoredIn;
    var reg, view := CommandLineOption(None), Values(NewFiles("$x$nope"));
    ValidatesOne(None, view, d);
    AllValidIff(reg, view, d);
    NoSettings(reg, Some(view));
    BareFrom("c", false, false, NewFiles("$x$nope"));
    XResolved(reg, None, "$x$nope", d);
    Unresolved(reg, "nope", Some(view), d);
    TwoTokens(reg, Some(view), d);
    Leaks(None, reg, "$x$nope", d);
  }

  /* ---------- mutable options behind immutable ones ---------- */

  // An immutable option i that refers to the mutable option k, both in the running files, and k in newer ones as well.
  function Mixed(override: Option<Val>): Registry {
    Holding(map["i" := Entered(Bare("i", false, false), override), "k" := Entered(Bare("k", true, false), None)], [],
            Values(map["i" := "$k", "k" := "old"])).(mutableNs := Some(Values(map["k" := "new"])))
  }

  /** Once there is a mutable namespace, looking the immutable option up asks for the mutable one in the main namespace,
      and caches "old" for it, where asking for it plainly finds "new". */
  lemma NamespacesMix(d: nat)
    requires d > 1
    ensures var reg, i, k := Mixed(None), Key(None, "i"), Key(None, "k");
            && Uncached(reg, i, None) && NestedNs(reg, i, None) == reg.namespace
            && Eval(reg, k, reg.namespace, d - 1) == Ok(Str("old")) && Eval(reg, k, None, d - 1) == Ok(Str("new"))
            && k in Nested(reg, i, None, d) && !Alike(reg, k, reg.namespace)
  {
    hide Eval, Values, PlainIn, Tokens, Unescape, SubstTokens, StoredInTokens, PlanOf, FirstKey, Alike;
    var reg, i, k := Mixed(None), Key(None, "i"), Key(None, "k");
    NoSettings(reg, reg.namespace);
    BarePlan(reg, "i", None, map["i" := "$k", "k" := "old"]);
    BareValue(reg, "k", reg.namespace, map["i" := "$k", "k" := "old"], d - 1);
    BareValue(reg, "k", None, map["k" := "new"], d - 1);
    NotAlike(reg, k, reg.namespace, Str("old"), Str("new"), d - 1);
    assert "$k" == "$" + "k";
    OneReference("k");
    NoDot("k", None);
    TokensStep(reg, [Reference("k")], None, reg.namespace, d - 1);
  }

  /** An immutable option whose override is a template follows the mutable namespace, because an override is substituted
      without a namespace. */
  lemma TemplateOverrideFollows(d: nat)
    requires d > 1
    ensures var reg, i := Mixed(Some(Str("$k"))), Key(None, "i");
            && Eval(reg, i, None, d) == Ok(Str("new"))
            && Eval(reg.(mutableNs := None), i, None, d) == Ok(Str("old"))
  {
    hide Eval, Values, Tokens, Unescape, Subst, FirstKey, Resolve;
    var reg := Mixed(Some(Str("$k")));
    OverrideFollows(reg, "new", map["k" := "new"], d);
    OverrideFollows(reg.(mutableNs := None), "old", map["i" := "$k", "k" := "old"], d);
  }

  lemma OverrideFollows(reg: Registry, v: string, values: map<string, string>, d: nat)
    requires d > 1 && SameOptions(Mixed(Some(Str("$k"))), reg) && "k" in values && values["k"] == v && Plain(v)
    requires Effective(reg, Bare("k", true, false), None) == Some(Values(values))
    ensures Eval(reg, Key(None, "i"), None, d) == Ok(Str(v))
  {
    hide Eval, Values, Tokens, Unescape, Subst, FirstKey, Resolve;
    BareValue(reg, "k", None, values, d - 1);
    assert "$k" == "$" + "k";
    EvalPlan(reg, Key(None, "i"), None, d);
    OneToken(reg, "k", None, None, d - 1);
    assert Resolve(reg, "k", None, None, d - 1) == Ok(Str(v)) by {
      hide *;
      ResolveHere(reg, "k", v, d - 1);
    }
  }

  lemma ResolveHere(reg: Registry, ref: string, v: string, d: nat)
    requires '.' !in ref && Eval(reg, Key(None, ref), None, d) == Ok(Str(v))
    ensures Resolve(reg, ref, None, None, d) == Ok(Str(v))
  {
    hide Eval;
    NoDot(ref, None);
  }

  // Options of one name in DEFAULT and in a group are told apart.
  lemma NamesPerGroup()
    ensures DistinctNames(Base(map["x" := Declared("x", NoneVal)], map["g" := map["x" := Declared("x", NoneVal)]]))
  {
  }

  /* ---------- the list of command-line options ---------- */

  // A command-line option x of group g.
  function OneEntry(): Registry {
    Registry(ANY_TYPE, map[], map["g" := map["x" := Info(Bare("x", false, false), true, None, None)]],
             [CliOpt(Bare("x", false, false), Some("g"))], None, None, false)
  }

  /** Registering an option x of DEFAULT that is no command-line option, and unregistering it again, takes the option x
      of the group off the command line. */
  lemma EntryOfAnother()
    ensures var reg := OneEntry();
            var reg' := Apply(reg, false, Register(Bare("x", false, false), None, false));
            && reg'.Ok? && Apply(reg'.value, false, Unregister("x", None)) == Ok(reg.(cliOpts := []))
  {
    var reg := OneEntry();
    var reg' := Apply(reg, false, Register(Bare("x", false, false), None, false)).value;
    assert reg'.opts - {"x"} == map[];
    assert FirstCaught(reg'.cliOpts, "x", None) == 0;
    assert reg'.cliOpts[..0] + reg'.cliOpts[1..] == [];
  }
}
