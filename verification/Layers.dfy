/** The order in which a lookup in `oslo_config/cfg.py` prefers its sources, what a reference with a group stands for,
    and which operations undo each other. */
module Layers {
  import opened Wrappers
  import opened ConfigFiles
  import opened Options
  import opened Template
  import opened Registry
  import opened ConfigEngine
  import Text

  // What the files and the command line say, if any namespace is in effect.
  function FromNamespace(reg: Registry, opt: Opt, group: Option<string>, ns: Option<View>): Option<Raw> {
    var n := Effective(reg, opt, ns);
    if n.Some? then GetFromNamespace(opt, n.value, group) else None
  }

  // Conversion by the option's own type, and the error its ValueError becomes.
  function Typed(types: Types, opt: Opt, v: Val, error: Error): Outcome {
    var c := types.convert(opt.typ, v);
    if c.Some? then Ok(c.value) else Err(error)
  }

  /** For an option with one value and a text without dollar signs: an override is returned as it is, whatever else is
      there; without one the namespace decides, converted; then the set default, as it is; then the declared default,
      converted; then None. */
  lemma LayersInOrder(reg: Registry, k: Key, info: Info, ns: Option<View>, d: nat, s: string)
    requires FindInfo(reg, k) == Ok(info) && !(k.group.None? && k.name in reg.groups) && !info.opt.multi
    requires Plain(s) && d > 0
    ensures info.override == Some(Str(s)) ==> Eval(reg, k, ns, d) == Ok(Str(s))
    ensures info.override.None? && FromNamespace(reg, info.opt, k.group, ns) == Some(One(s)) ==>
      Eval(reg, k, ns, d) == Typed(reg.types, info.opt, Str(s), BadFileValue)
    ensures info.override.None? && FromNamespace(reg, info.opt, k.group, ns).None? && info.default == Some(Str(s)) ==>
      Eval(reg, k, ns, d) == Ok(Str(s))
    ensures info.override.None? && FromNamespace(reg, info.opt, k.group, ns).None? && info.default.None? ==>
      && (info.opt.default == Str(s) ==>
            Eval(reg, k, ns, d) ==
              Typed(reg.types, info.opt, Str(s), if reg.validateDefaults then BadFileValue else BadValue))
      && (info.opt.default == NoneVal ==> Eval(reg, k, ns, d) == Ok(NoneVal))
  {
    hide Subst, GetFromNamespace;
    match PlanOf(reg, k, ns)
    case Done(_) =>
    case Substitute(_, g, n, _) => PlainText(reg, s, g, n, d - 1);
  }

  /* ---------- references with a group ---------- */

  lemma OneTokenText(reg: Registry, name: string, group: Option<string>, ns: Option<View>, d: nat)
    ensures SubstTokens(reg, [Reference(name)], group, ns, d) == Shown(reg.types, Resolve(reg, name, group, ns, d))
  {
    hide Resolve;
    var ts := [Reference(name)];
    assert ts[1..] == [] && SubstTokens(reg, ts[1..], group, ns, d) == Ok("");
    var r := Shown(reg.types, Resolve(reg, name, group, ns, d));
    assert r.Ok? ==> r.value + "" == r.value;
  }

  /** The text "$group.name", with or without braces, stands for the shown value of that option, in whatever group the
      text itself is; and it is refused when there is no such group, even if DEFAULT has an option of the whole name. */
  lemma DottedReference(reg: Registry, group: string, name: string, context: Option<string>, ns: Option<View>, d: nat,
                        text: string)
    requires '.' !in group && Identifier(group + "." + name) && d > 0
    requires text == "$" + (group + "." + name) || text == "${" + (group + "." + name) + "}"
    ensures forall v :: Eval(reg, Key(Some(group), name), ns, d) == Ok(v) && !v.GroupAttr? ==>
      Subst(reg, Str(text), context, ns, d) == Ok(Str(reg.types.show(v)))
    ensures group !in reg.groups ==> Subst(reg, Str(text), context, ns, d) == Err(NoSuchGroup)
  {
    hide SubstTokens, Tokens, Unescape;
    var ref := group + "." + name;
    if text == "$" + ref {
      OneReference(ref);
    } else {
      BracedReference(ref);
    }
    OneTokenText(reg, ref, context, ns, d);
    Text.FindIn(group, '.', name);
    assert ref == group + ['.'] + name;
    assert ref[..|group|] == group && ref[|group| + 1..] == name;
  }

  /* ---------- what one operation undoes ---------- */

  lemma GroupBack(reg: Registry, group: Option<string>, h: Group)
    requires group.Some? ==> group.value in reg.groups
    ensures PutGroup(PutGroup(reg, group, h), group, GroupOf(reg, group)) == reg
    ensures GroupOf(PutGroup(reg, group, h), group) == h
    ensures group.Some? ==> group.value in PutGroup(reg, group, h).groups
  {
    if group.Some? {
      assert reg.groups[group.value := h][group.value := reg.groups[group.value]] == reg.groups;
    }
  }

  lemma InfoBack(reg: Registry, k: Key, info: Info, i: Info)
    requires FindInfo(reg, k) == Ok(info)
    ensures PutInfo(PutInfo(reg, k, i), k, info) == reg && FindInfo(PutInfo(reg, k, i), k) == Ok(i)
  {
    hide PutGroup;
    var g := GroupOf(reg, k.group);
    GroupBack(reg, k.group, g[k.name := i]);
    assert g[k.name := i][k.name := info] == g;
    PutFound(reg, k, i);
  }

  lemma PutFound(reg: Registry, k: Key, i: Info)
    ensures FindInfo(PutInfo(reg, k, i), k) == Ok(i)
  {
  }

  // Clearing an override, or a set default, that was set on an option without one gives back the registry.
  lemma ClearUndoesSet(reg: Registry, parsed: bool, k: Key, info: Info, v: Val, enforceType: bool)
    requires FindInfo(reg, k) == Ok(info)
    ensures info.override.None? && Apply(reg, parsed, SetOverride(k, v, enforceType)).Ok? ==>
      Apply(Apply(reg, parsed, SetOverride(k, v, enforceType)).value, parsed, ClearOverride(k)) == Ok(reg)
    ensures info.default.None? && Apply(reg, parsed, SetDefault(k, v, enforceType)).Ok? ==>
      Apply(Apply(reg, parsed, SetDefault(k, v, enforceType)).value, parsed, ClearDefault(k)) == Ok(reg)
  {
    hide FindInfo, PutInfo;
    forall i ensures PutInfo(PutInfo(reg, k, i), k, info) == reg && FindInfo(PutInfo(reg, k, i), k) == Ok(i) {
      InfoBack(reg, k, info, i);
    }
  }

  // Unregistering stops at the entry that registering made, if at any.
  predicate OwnEntryFirst(os: seq<CliOpt>, o: CliOpt, cli: bool) {
    if cli && !o.opt.positional then o !in os else forall e :: e in os ==> !Catches(e, o.opt.dest, o.group)
  }

  lemma ListBack(os: seq<CliOpt>, o: CliOpt, cli: bool)
    ensures var os' := if cli then AddCliOpt(os, o) else os;
            var i := FirstCaught(os', o.opt.dest, o.group);
      OwnEntryFirst(os, o, cli) <==>
        if i == |os'| then os' == os
        else !(o.group.Some? && os'[i].group.None?) && os'[..i] + os'[i + 1..] == os
  {
    hide FirstCaught;
    var os' := if cli then AddCliOpt(os, o) else os;
    var i := FirstCaught(os', o.opt.dest, o.group);
    assert Catches(o, o.opt.dest, o.group);
    if o in os' {
      var j :| 0 <= j < |os'| && os'[j] == o;
      assert i <= j;
    }
    if cli && o !in os && o.opt.positional && i < |os| {
      assert os'[i] == os[i];
      assert (os'[..i] + os'[i + 1..])[|os| - 1] == o;
    }
    if cli && o !in os && !o.opt.positional {
      assert os'[0] == o && os'[..0] + os'[1..] == os;
    }
    if cli && o !in os && o.opt.positional && i == |os| {
      assert os'[..i] + os'[i + 1..] == os;
    }
  }

  /** Unregistering a new option of a group that was there, before arguments are parsed, gives back the registry exactly
      when it finds no other entry in the list of command-line options first. One that is no command-line option, or a
      positional one, can take the entry of another option of its name with it, in DEFAULT one of any group. */
  lemma UnregisterUndoesRegister(reg: Registry, opt: Opt, group: Option<string>, cli: bool)
    requires opt.dest !in GroupOf(reg, group) && (group.Some? ==> group.value in reg.groups)
    requires Apply(reg, false, Register(opt, group, cli)).Ok?
    ensures Apply(Apply(reg, false, Register(opt, group, cli)).value, false, Unregister(opt.dest, group)) == Ok(reg)
       <==> OwnEntryFirst(reg.cliOpts, CliOpt(opt, group), cli)
  {
    hide PutGroup, AddCliOpt, OwnEntryFirst, FirstCaught, GroupOf;
    var g := GroupOf(reg, group);
    var g' := g[opt.dest := Info(opt, cli, None, None)];
    var os' := if cli then AddCliOpt(reg.cliOpts, CliOpt(opt, group)) else reg.cliOpts;
    assert g' - {opt.dest} == g;
    GroupBack(reg, group, g');
    ListApart(reg, group, g', os');
    ListApart(PutGroup(reg, group, g'), group, g, os');
    ListBack(reg.cliOpts, CliOpt(opt, group), cli);
  }

  // Groups and the list of command-line options are changed apart from each other.
  lemma ListApart(reg: Registry, group: Option<string>, g: Group, os: seq<CliOpt>)
    ensures PutGroup(reg.(cliOpts := os), group, g) == PutGroup(reg, group, g).(cliOpts := os)
    ensures PutGroup(reg, group, g).cliOpts == reg.cliOpts
    ensures GroupOf(reg.(cliOpts := os), group) == GroupOf(reg, group)
    ensures group.Some? ==> group.value in PutGroup(reg, group, g).groups
  {
  }

  /** After `set_override` every lookup of the option gives the value, whatever the files, the set default and the
      declared default say; after `set_default` it gives the value unless an override or the namespace has one. */
  lemma SetThenGet(reg: Registry, parsed: bool, k: Key, info: Info, s: string, ns: Option<View>, d: nat)
    requires FindInfo(reg, k) == Ok(info) && !(k.group.None? && k.name in reg.groups) && !info.opt.multi
    requires Plain(s) && d > 0
    ensures var reg' := Apply(reg, parsed, SetOverride(k, Str(s), false));
      reg'.Ok? && Eval(reg'.value, k, ns, d) == Ok(Str(s))
    ensures var reg' := Apply(reg, parsed, SetDefault(k, Str(s), false));
      && reg'.Ok?
      && (info.override.None? && FromNamespace(reg, info.opt, k.group, ns).None? ==>
            Eval(reg'.value, k, ns, d) == Ok(Str(s)))
      && (forall t :: Plain(t) && info.override == Some(Str(t)) ==> Eval(reg'.value, k, ns, d) == Ok(Str(t)))
  {
    hide Eval, FromNamespace;
    var a, b := info.(override := Some(Str(s))), info.(default := Some(Str(s)));
    LayersInOrder(PutInfo(reg, k, a), k, a, ns, d, s);
    LayersInOrder(PutInfo(reg, k, b), k, b, ns, d, s);
    SameNamespace(reg, k, b, ns);
    forall t | Plain(t) && info.override == Some(Str(t)) ensures Eval(PutInfo(reg, k, b), k, ns, d) == Ok(Str(t)) {
      LayersInOrder(PutInfo(reg, k, b), k, b, ns, d, t);
    }
  }

  lemma SameNamespace(reg: Registry, k: Key, info: Info, ns: Option<View>)
    ensures FromNamespace(PutInfo(reg, k, info), info.opt, k.group, ns) == FromNamespace(reg, info.opt, k.group, ns)
  {
  }
}
