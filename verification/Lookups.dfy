/** What a lookup in `oslo_config/cfg.py` gives: where it looks, what a reference stands for, and how values are
    converted. */
module Lookups {
  import opened Wrappers
  import opened ConfigFiles
  import opened Options
  import opened Template
  import opened Registry
  import opened ConfigEngine
  import opened Layers
  import Text

  /* ---------- references ---------- */

  // What a reference comes to that is looked up in one place first and then in another.
  function Referred(reg: Registry, first: Key, second: Key, ns: Option<View>, d: nat): Result<string, Error> {
    var a, b := Eval(reg, first, ns, d), Eval(reg, second, ns, d);
    match if a == Err(NoSuchOpt) then b else a
    case Err(e) => Err(e)
    case Ok(GroupAttr(_)) => Err(GroupInTemplate)
    case Ok(v) => Ok(reg.types.show(v))
  }

  lemma OneReferenceText(reg: Registry, name: string, context: Option<string>, ns: Option<View>, d: nat, text: string)
    requires Identifier(name) && (text == "$" + name || text == "${" + name + "}")
    ensures var r := Shown(reg.types, Resolve(reg, name, context, ns, d));
            Subst(reg, Str(text), context, ns, d) == if r.Err? then Err(r.error) else Ok(Str(r.value))
  {
    hide SubstTokens, Tokens, Unescape, Resolve;
    if text == "$" + name {
      OneReference(name);
    } else {
      BracedReference(name);
    }
    OneTokenText(reg, name, context, ns, d);
  }

  /** A name without a dot is looked up in the group of the text, and if that has no such option in DEFAULT; the shown
      value takes its place. A group is no value, and every other error stays. */
  lemma UndottedReference(reg: Registry, name: string, context: Option<string>, ns: Option<View>, d: nat, text: string)
    requires Identifier(name) && '.' !in name && (text == "$" + name || text == "${" + name + "}")
    ensures var r := Referred(reg, Key(context, name), Key(None, name), ns, d);
            Subst(reg, Str(text), context, ns, d) == if r.Err? then Err(r.error) else Ok(Str(r.value))
  {
    hide Eval, Subst;
    OneReferenceText(reg, name, context, ns, d, text);
  }

  /** A name with a dot is looked up in the group before its first dot, and if that has no such option whole in
      DEFAULT. */
  lemma DottedReferenceInFull(reg: Registry, group: string, name: string, context: Option<string>, ns: Option<View>,
                              d: nat, text: string)
    requires '.' !in group && Identifier(group + "." + name)
    requires text == "$" + (group + "." + name) || text == "${" + (group + "." + name) + "}"
    ensures var r := Referred(reg, Key(Some(group), name), Key(None, group + "." + name), ns, d);
            Subst(reg, Str(text), context, ns, d) == if r.Err? then Err(r.error) else Ok(Str(r.value))
  {
    hide Eval, Subst;
    var ref := group + "." + name;
    OneReferenceText(reg, ref, context, ns, d, text);
    Text.FindIn(group, '.', name);
    assert ref == group + ['.'] + name;
    assert ref[..|group|] == group && ref[|group| + 1..] == name;
  }

  /** A text is substituted piece by piece, up to the first error. */
  lemma {:induction false} TokensInPieces(reg: Registry, ts: seq<Token>, us: seq<Token>, group: Option<string>,
                                          ns: Option<View>, d: nat)
    ensures var a, b := SubstTokens(reg, ts, group, ns, d), SubstTokens(reg, us, group, ns, d);
      SubstTokens(reg, ts + us, group, ns, d) ==
        if a.Err? then a else if b.Err? then b else Ok(a.value + b.value)
  {
    hide Resolve;
    var b := SubstTokens(reg, us, group, ns, d);
    if ts == [] {
      assert ts + us == us;
      assert b.Ok? ==> "" + b.value == b.value;
    } else {
      assert (ts + us)[1..] == ts[1..] + us && (ts + us)[0] == ts[0];
      TokensInPieces(reg, ts[1..], us, group, ns, d);
      var rest := SubstTokens(reg, ts[1..], group, ns, d);
      var head := if ts[0].Literal? then Ok([ts[0].c]) else Shown(reg.types, Resolve(reg, ts[0].name, group, ns, d));
      assert head.Ok? && rest.Ok? && b.Ok? ==> head.value + (rest.value + b.value) == head.value + rest.value + b.value;
    }
  }

  /** A list is substituted item by item, up to the first error. */
  lemma {:induction false} ItemsInOrder(reg: Registry, items: seq<Val>, group: Option<string>, ns: Option<View>, d: nat,
                                        i: nat)
    requires i <= |items| && forall j :: 0 <= j < i ==> Subst(reg, items[j], group, ns, d).Ok?
    requires i < |items| ==> Subst(reg, items[i], group, ns, d).Err?
    ensures i < |items| ==> SubstAll(reg, items, group, ns, d) == Err(Subst(reg, items[i], group, ns, d).error)
    ensures i == |items| ==>
      var r := SubstAll(reg, items, group, ns, d);
      && r.Ok? && |r.value| == i
      && forall j :: 0 <= j < i ==> r.value[j] == Subst(reg, items[j], group, ns, d).value
  {
    hide Subst;
    if items != [] && i > 0 {
      ItemsInOrder(reg, items[1..], group, ns, d, i - 1);
    }
  }

  /* ---------- conversion ---------- */

  /** Every item of a multi-valued option is converted by its type, any other value as a whole; a single failure is
      one. */
  lemma {:induction false} ItemsConverted(types: Types, typ: nat, vs: seq<Val>)
    ensures ConvertAll(types, typ, vs).Some? <==> forall i :: 0 <= i < |vs| ==> types.convert(typ, vs[i]).Some?
    ensures ConvertAll(types, typ, vs).Some? ==>
      && |ConvertAll(types, typ, vs).value| == |vs|
      && forall i :: 0 <= i < |vs| ==> types.convert(typ, vs[i]) == Some(ConvertAll(types, typ, vs).value[i])
  {
    if vs != [] {
      ItemsConverted(types, typ, vs[1..]);
      if forall i :: 0 <= i < |vs| ==> types.convert(typ, vs[i]).Some? {
        assert types.convert(typ, vs[0]).Some?;
        forall i | 0 <= i < |vs| - 1 ensures types.convert(typ, vs[1..][i]).Some? {
          assert vs[1..][i] == vs[i + 1];
        }
      }
    }
  }

  lemma ConvertedValue(types: Types, opt: Opt, v: Val)
    ensures opt.multi && v.Lst? ==>
      && (Convert(types, opt, v) == Err(BadValue)
          <==> exists i :: 0 <= i < |v.items| && types.convert(opt.typ, v.items[i]).None?)
      && (Convert(types, opt, v).Err? ==> Convert(types, opt, v) == Err(BadValue))
      && (Convert(types, opt, v).Ok? ==>
            var r := Convert(types, opt, v).value;
            r.Lst? && |r.items| == |v.items|
            && forall i :: 0 <= i < |v.items| ==> types.convert(opt.typ, v.items[i]) == Some(r.items[i]))
    ensures !opt.multi ==>
      Convert(types, opt, v) ==
        match types.convert(opt.typ, v) case Some(w) => Ok(w) case None => Err(BadValue)
  {
    if opt.multi && v.Lst? {
      ItemsConverted(types, opt.typ, v.items);
    }
  }

  /* ---------- where a lookup looks ---------- */

  /** The name of a group stands for the group; a missing group is an error of its own, and so is a missing option. */
  lemma WhatIsThere(reg: Registry, k: Key, ns: Option<View>, d: nat)
    requires d > 0
    ensures k.group == None && k.name in reg.groups ==> Eval(reg, k, ns, d) == Ok(GroupAttr(k.name))
    ensures k.group == None && k.name !in reg.groups && k.name !in reg.opts ==> Eval(reg, k, ns, d) == Err(NoSuchOpt)
    ensures k.group != None && k.group.value !in reg.groups ==> Eval(reg, k, ns, d) == Err(NoSuchGroup)
    ensures k.group != None && k.group.value in reg.groups && k.name !in reg.groups[k.group.value] ==>
      Eval(reg, k, ns, d) == Err(NoSuchOpt)
  {
    hide Subst, GetFromNamespace;
  }

  // The namespace a lookup of an option reads.
  function ReadNamespace(reg: Registry, mutable: bool, ns: Option<View>): Option<View> {
    match (ns, mutable, reg.mutableNs)
    case (Some(_), _, _) => ns
    case (None, true, Some(_)) => reg.mutableNs
    case _ => reg.namespace
  }

  lemma NamespaceRead(reg: Registry, opt: Opt, ns: Option<View>)
    ensures Effective(reg, opt, ns) == ReadNamespace(reg, opt.mutable, ns)
  {
  }

  // The outcome of the conversion of a substituted value, and of what goes wrong in it.
  function ConvertedOutcome(reg: Registry, opt: Opt, r: Outcome, wrapped: bool): Outcome {
    match r
    case Err(e) => if wrapped && (e == BadValue || e == BadFileValue) then Err(BadFileValue) else Err(e)
    case Ok(v) =>
      match Convert(reg.types, opt, v)
      case Ok(w) => Ok(w)
      case Err(_) => if wrapped then Err(BadFileValue) else Err(BadValue)
  }

  /** A value of the namespace asked for, or else of the mutable one for a mutable option, or else of the main one,
      comes before a set default and the declared default, and behind an override. It is substituted in the option's
      group and in this namespace, and then converted; a value that does not convert is reported as a bad value of
      the file. */
  lemma ValueFromNamespace(reg: Registry, k: Key, info: Info, ns: Option<View>, d: nat, view: View, raw: Raw)
    requires FindInfo(reg, k) == Ok(info) && !(k.group == None && k.name in reg.groups) && info.override == None
    requires ReadNamespace(reg, info.opt.mutable, ns) == Some(view)
    requires GetFromNamespace(info.opt, view, k.group) == Some(raw)
    ensures Eval(reg, k, ns, d + 1) ==
      ConvertedOutcome(reg, info.opt, Subst(reg, RawVal(raw), k.group, Some(view), d), true)
  {
    hide Subst, GetFromNamespace, Convert;
    NamespaceRead(reg, info.opt, ns);
    EvalPlan(reg, k, ns, d + 1);
    var r := Subst(reg, RawVal(raw), k.group, Some(view), d);
    if r.Ok? {
      ConvertErrors(reg.types, info.opt, r.value);
    }
  }

  // What files say: one text, or a list of texts.
  lemma RawIs(raw: Raw)
    ensures raw.One? ==> RawVal(raw) == Str(raw.s)
    ensures raw.Many? ==>
      && RawVal(raw).Lst? && |RawVal(raw).items| == |raw.ss|
      && forall i :: 0 <= i < |raw.ss| ==> RawVal(raw).items[i] == Str(raw.ss[i])
  {
  }

  /** An override comes first. It and a set default are substituted outside any group and namespace, and not
      converted. */
  lemma SettingUsed(reg: Registry, k: Key, info: Info, ns: Option<View>, d: nat, v: Val)
    requires FindInfo(reg, k) == Ok(info) && !(k.group == None && k.name in reg.groups)
    requires info.override == Some(v)
             || (info.override == None && info.default == Some(v) && NothingRead(reg, k, info.opt, ns))
    ensures Eval(reg, k, ns, d + 1) == Subst(reg, v, None, None, d)
  {
    hide Subst, GetFromNamespace;
    EvalPlan(reg, k, ns, d + 1);
    NamespaceRead(reg, info.opt, ns);
  }

  predicate NothingRead(reg: Registry, k: Key, opt: Opt, ns: Option<View>) {
    var n := ReadNamespace(reg, opt.mutable, ns);
    n == None || GetFromNamespace(opt, n.value, k.group) == None
  }

  /** The declared default comes last. It is substituted in the option's group and in the namespace that has nothing,
      and converted; without one the value is None. */
  lemma DefaultUsed(reg: Registry, k: Key, info: Info, ns: Option<View>, d: nat)
    requires FindInfo(reg, k) == Ok(info) && !(k.group == None && k.name in reg.groups)
    requires info.override == None && info.default == None && NothingRead(reg, k, info.opt, ns)
    ensures Eval(reg, k, ns, d + 1) ==
      if info.opt.default == NoneVal then Ok(NoneVal)
      else ConvertedOutcome(reg, info.opt, Subst(reg, info.opt.default, k.group,
                                                 ReadNamespace(reg, info.opt.mutable, ns), d), reg.validateDefaults)
  {
    hide Subst, GetFromNamespace, Convert;
    NamespaceRead(reg, info.opt, ns);
    EvalPlan(reg, k, ns, d + 1);
    var r := Subst(reg, info.opt.default, k.group, ReadNamespace(reg, info.opt.mutable, ns), d);
    if r.Ok? {
      ConvertErrors(reg.types, info.opt, r.value);
    }
  }
}
