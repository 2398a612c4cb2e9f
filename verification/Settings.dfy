/** What registering, unregistering, setting and clearing do to the options of a `ConfigOpts` object of
    `oslo_config/cfg.py`, and which files it accepts. */
module Settings {
  import opened Wrappers
  import opened ConfigFiles
  import opened Options
  import opened Registry
  import opened ConfigEngine
  import opened Sorting

  /* ---------- registering ---------- */

  // Everything but what an operation is about stays: all other options that were there.
  ghost predicate OthersStay(reg: Registry, reg': Registry, k: Key) {
    && (forall m :: m != k && FindInfo(reg, m).Ok? ==> FindInfo(reg', m) == FindInfo(reg, m))
    && (forall m :: m != k && FindInfo(reg', m).Ok? ==> FindInfo(reg, m) == FindInfo(reg', m))
  }

  /** An option is refused under one of five names in DEFAULT, or where another option has its place. Otherwise it is
      there afterwards, without an override or a set default if it is new, and its group is. Nothing else changes. */
  lemma RegisterInFull(reg: Registry, parsed: bool, opt: Opt, group: Option<string>, cli: bool)
    ensures var r, k := Apply(reg, parsed, Register(opt, group, cli)), Key(group, opt.dest);
      if group == None && opt.name in {"project", "prog", "version", "usage", "default_config_files"} then
        r == Err(ReservedName)
      else if FindInfo(reg, k).Ok? && FindInfo(reg, k).value.opt != opt then r == Err(DuplicateOpt)
      else
        && r.Ok? && OthersStay(reg, r.value, k)
        && FindInfo(r.value, k) == (if FindInfo(reg, k).Ok? then FindInfo(reg, k) else Ok(Info(opt, cli, None, None)))
        && (group.Some? ==> group.value in r.value.groups)
        && r.value == reg.(opts := r.value.opts, groups := r.value.groups, cliOpts := r.value.cliOpts)
  {
    hide AddCliOpt, FindInfo, OthersStay, PutGroup;
    var g, k := GroupOf(reg, group), Key(group, opt.dest);
    FoundInGroup(reg, k);
    var os := if cli then AddCliOpt(reg.cliOpts, CliOpt(opt, group)) else reg.cliOpts;
    var g' := if opt.dest in g then g else g[opt.dest := Info(opt, cli, None, None)];
    PutGroupOnly(reg, k, g', os);
  }

  lemma FoundInGroup(reg: Registry, k: Key)
    ensures FindInfo(reg, k) ==
      if k.group.Some? && k.group.value !in reg.groups then Err(NoSuchGroup)
      else if k.name in GroupOf(reg, k.group) then Ok(GroupOf(reg, k.group)[k.name]) else Err(NoSuchOpt)
  {
  }

  lemma PutGroupOnly(reg: Registry, k: Key, g: Group, os: seq<CliOpt>)
    requires k.name in g && g == GroupOf(reg, k.group)[k.name := g[k.name]]
    ensures var reg' := PutGroup(reg, k.group, g).(cliOpts := os);
      && FindInfo(reg', k) == Ok(g[k.name]) && OthersStay(reg, reg', k)
      && (k.group.Some? ==> k.group.value in reg'.groups)
      && reg' == reg.(opts := reg'.opts, groups := reg'.groups, cliOpts := reg'.cliOpts)
  {
  }

  /** The list of command-line options gets the option, at its end if it is positional and else at its front, unless it
      has it; a refusal because of another option in its place comes after that, one of a name before. */
  lemma ListAfterRegister(reg: Registry, parsed: bool, opt: Opt, group: Option<string>, cli: bool)
    ensures
      var o := CliOpt(opt, group);
      var more := if !cli || o in reg.cliOpts then reg.cliOpts
                  else if opt.positional then reg.cliOpts + [o] else [o] + reg.cliOpts;
      var r := Apply(reg, parsed, Register(opt, group, cli));
      && (r.Ok? ==> r.value.cliOpts == more)
      && (r == Err(DuplicateOpt) ==> Refusal(reg, Register(opt, group, cli)) == reg.(cliOpts := more))
      && (r == Err(ReservedName) ==> Refusal(reg, Register(opt, group, cli)) == reg)
  {
  }

  /** Unregistering is refused once arguments were parsed, for a missing group, and where the first entry for the name
      that is not of another group is one of DEFAULT while a group was given; otherwise the option is gone and
      nothing else. */
  lemma UnregisterInFull(reg: Registry, parsed: bool, dest: string, group: Option<string>)
    ensures var r, k := Apply(reg, parsed, Unregister(dest, group)), Key(group, dest);
      && (parsed ==> r == Err(ArgsAlreadyParsed))
      && (!parsed && group.Some? && group.value !in reg.groups ==> r == Err(NoGroup))
      && (r.Ok? ==> FindInfo(r.value, k) == Err(NoSuchOpt) && OthersStay(reg, r.value, k)
                    && (forall g :: g in reg.groups <==> g in r.value.groups))
  {
    hide FirstCaught;
  }

  // An entry of that name which is not one of another group.
  predicate Concerns(e: CliOpt, dest: string, group: Option<string>) {
    e.opt.dest == dest && match (e.group, group) case (Some(g), Some(h)) => g == h case _ => true
  }

  /** The first such entry is taken off the list of command-line options, and refuses the call if it is one of DEFAULT
      and a group was given. */
  lemma ListAfterUnregister(reg: Registry, dest: string, group: Option<string>, i: nat)
    requires group.Some? ==> group.value in reg.groups
    requires i <= |reg.cliOpts| && forall j :: 0 <= j < i ==> !Concerns(reg.cliOpts[j], dest, group)
    requires i < |reg.cliOpts| ==> Concerns(reg.cliOpts[i], dest, group)
    ensures var os, r := reg.cliOpts, Apply(reg, false, Unregister(dest, group));
      if i == |os| then r.Ok? && r.value.cliOpts == os
      else if group != None && os[i].group == None then r == Err(NotInGroup)
      else r.Ok? && r.value.cliOpts == os[..i] + os[i + 1..]
  {
    hide FirstCaught;
    forall e | e in reg.cliOpts ensures Catches(e, dest, group) <==> Concerns(e, dest, group) {
    }
    var n := FirstCaught(reg.cliOpts, dest, group);
    assert !(n < i) && !(i < n);
  }

  /* ---------- setting and clearing ---------- */

  // What is set: the value, or if its type is to be enforced and it is not None, what its conversion gives.
  function Enforced(types: Types, opt: Opt, v: Val, enforceType: bool): Result<Val, Error> {
    if enforceType && v != NoneVal then Convert(types, opt, v) else Ok(v)
  }

  /** Setting an override or a default of an option changes just that, or is refused where there is no such group or
      option or the value does not convert. */
  lemma SetInFull(reg: Registry, parsed: bool, k: Key, v: Val, enforceType: bool)
    ensures var a, b, found := Apply(reg, parsed, SetOverride(k, v, enforceType)),
                               Apply(reg, parsed, SetDefault(k, v, enforceType)), FindInfo(reg, k);
      if found == Err(NoSuchGroup) then a == b == Err(NoGroup)
      else if found.Err? then a == b == Err(NoOption)
      else
        var w := Enforced(reg.types, found.value.opt, v, enforceType);
        if w.Err? then a == b == Err(WrongType)
        else
          && a.Ok? && FindInfo(a.value, k) == Ok(found.value.(override := Some(w.value))) && OthersStay(reg, a.value, k)
          && b.Ok? && FindInfo(b.value, k) == Ok(found.value.(default := Some(w.value))) && OthersStay(reg, b.value, k)
  {
    hide Convert;
    if FindInfo(reg, k).Ok? {
      forall i ensures FindInfo(PutInfo(reg, k, i), k) == Ok(i) && OthersStay(reg, PutInfo(reg, k, i), k) {
        PutOnly(reg, k, i);
      }
    }
    hide PutInfo, OthersStay;
  }

  lemma PutOnly(reg: Registry, k: Key, i: Info)
    requires FindInfo(reg, k).Ok?
    ensures FindInfo(PutInfo(reg, k, i), k) == Ok(i) && OthersStay(reg, PutInfo(reg, k, i), k)
  {
  }

  lemma ClearInFull(reg: Registry, parsed: bool, k: Key)
    ensures var a, b, found :=
      Apply(reg, parsed, ClearOverride(k)), Apply(reg, parsed, ClearDefault(k)), FindInfo(reg, k);
      if found == Err(NoSuchGroup) then a == b == Err(NoGroup)
      else if found.Err? then a == b == Err(NoOption)
      else
        && a.Ok? && FindInfo(a.value, k) == Ok(found.value.(override := None)) && OthersStay(reg, a.value, k)
        && b.Ok? && FindInfo(b.value, k) == Ok(found.value.(default := None)) && OthersStay(reg, b.value, k)
  {
    if FindInfo(reg, k).Ok? {
      forall i ensures FindInfo(PutInfo(reg, k, i), k) == Ok(i) && OthersStay(reg, PutInfo(reg, k, i), k) {
        PutOnly(reg, k, i);
      }
    }
    hide PutInfo, OthersStay;
  }

  /* ---------- accepting files ---------- */

  /** Files are accepted exactly when none is missing, every value they have for a command-line option can be
      substituted in its group and converted, and every registered option that is required and has neither an override
      nor a set default has a value that is not None. */
  lemma AcceptedInFull(reg: Registry, files: Parsed, d: nat)
    ensures Accepted(reg, files, d) <==>
      && files.Parsed? && files.missing == []
      && (forall o, raw :: o in reg.cliOpts && GetFromNamespace(o.opt, files.view, o.group) == Some(raw) ==>
            var v := Subst(reg, RawVal(raw), o.group, Some(files.view), d);
            v.Ok? && Convert(reg.types, o.opt, v.value).Ok?)
      && (forall k, info :: (&& FindInfo(reg, k) == Ok(info) && info.opt.required
                             && info.override == None && info.default == None) ==>
            exists v :: v != NoneVal && Eval(reg, k, Some(files.view), d) == Ok(v))
  {
    hide Eval, Subst, Convert, GetFromNamespace, AllKeys, FindInfo;
    forall k ensures FindInfo(reg, k).Ok? <==> k in AllKeys(reg) {
      AllKeysFound(reg, k);
    }
    if files.Parsed? {
      ValidEach(reg, files.view, d);
      GivenEach(reg, files.view, d);
    }
  }

  lemma ValidEach(reg: Registry, view: View, d: nat)
    ensures AllValid(reg, view, d) <==>
      forall o, raw :: o in reg.cliOpts && GetFromNamespace(o.opt, view, o.group) == Some(raw) ==>
        var v := Subst(reg, RawVal(raw), o.group, Some(view), d);
        v.Ok? && Convert(reg.types, o.opt, v.value).Ok?
  {
    hide Subst, Convert, GetFromNamespace, RawVal;
    if forall o, raw :: o in reg.cliOpts && GetFromNamespace(o.opt, view, o.group) == Some(raw) ==>
         var v := Subst(reg, RawVal(raw), o.group, Some(view), d);
         v.Ok? && Convert(reg.types, o.opt, v.value).Ok? {
      forall o | o in reg.cliOpts ensures Validated(reg, view, d, o).Valid? {
        var raw := GetFromNamespace(o.opt, view, o.group);
        if raw.Some? {
          assert raw == Some(raw.value);
        }
      }
    }
  }

  lemma GivenEach(reg: Registry, view: View, d: nat)
    ensures AllGiven(reg, view, d) <==>
      forall k, info :: (&& FindInfo(reg, k) == Ok(info) && info.opt.required
                         && info.override == None && info.default == None) ==>
        exists v :: v != NoneVal && Eval(reg, k, Some(view), d) == Ok(v)
  {
    hide Eval, AllKeys, FindInfo;
    forall k ensures k in RequiredKeys(reg) <==>
      exists info :: FindInfo(reg, k) == Ok(info) && info.opt.required && info.override == None && info.default == None
    {
      AllKeysFound(reg, k);
      if FindInfo(reg, k).Ok? {
        assert FindInfo(reg, k) == Ok(FindInfo(reg, k).value);
      }
    }
    forall k ensures IsGiven(reg, view, d, k) <==> exists v :: v != NoneVal && Eval(reg, k, Some(view), d) == Ok(v) {
      var r := Eval(reg, k, Some(view), d);
      if r.Ok? {
        assert r == Ok(r.value);
      }
    }
    hide RequiredKeys, IsGiven;
  }

  // What is wrong with the value of one option.
  function Fault(reg: Registry, view: View, d: nat, o: CliOpt, raw: Raw): Validity {
    match Subst(reg, RawVal(raw), o.group, Some(view), d)
    case Err(e) => Raises(e)
    case Ok(v) => if Convert(reg.types, o.opt, v).Ok? then Valid else Exits(o)
  }

  /** Validation ends at the option whose name comes first in the order of strings among those with a fault. */
  lemma FirstFaultByName(reg: Registry, view: View, d: nat, o: CliOpt, raw: Raw)
    requires o in reg.cliOpts && GetFromNamespace(o.opt, view, o.group) == Some(raw)
    requires Fault(reg, view, d, o, raw) != Valid
    requires forall e :: e in reg.cliOpts && e != o && !Validated(reg, view, d, e).Valid? ==>
      e.opt.name != o.opt.name && NotAfter(o.opt.name, e.opt.name)
    ensures ValidatedAll(reg, view, d, ByName(reg.cliOpts)) == Fault(reg, view, d, o, raw)
  {
    hide Subst, Convert, GetFromNamespace, NotAfter, Validated, Fault, ValidatedAll, ByName;
    var os := ByName(reg.cliOpts);
    FaultIs(reg, view, d, o, raw);
    NamesInOrder(reg.cliOpts);
    var i := FirstAt(os, o);
    forall e | e in os[..i] ensures Validated(reg, view, d, e).Valid? {
      var j :| 0 <= j < i && os[j] == e;
      assert e in os && e != o && NotAfter(os[j].opt.name, os[i].opt.name);
      NotAfterTotal(e.opt.name, o.opt.name);
    }
    ValidIff(reg, view, d, os[..i]);
    OneMore(reg, view, d, os, i);
    FirstFault(reg, view, d, os, i + 1);
  }

  lemma OneMore(reg: Registry, view: View, d: nat, os: seq<CliOpt>, i: nat)
    requires i < |os| && ValidatedAll(reg, view, d, os[..i]).Valid?
    ensures ValidatedAll(reg, view, d, os[..i + 1]) == Validated(reg, view, d, os[i])
  {
    hide Validated;
    assert os[..i + 1][..i] == os[..i];
  }

  lemma NamesInOrder(os: seq<CliOpt>)
    ensures forall o :: o in ByName(os) <==> o in os
    ensures forall i, j :: 0 <= i < j < |ByName(os)| ==> NotAfter(ByName(os)[i].opt.name, ByName(os)[j].opt.name)
  {
    hide NotAfter, Sorted;
    var name := (o: CliOpt) => o.opt.name;
    SortedMembers(os, name);
    SortedByName(os, name, "");
  }

  lemma FaultIs(reg: Registry, view: View, d: nat, o: CliOpt, raw: Raw)
    requires GetFromNamespace(o.opt, view, o.group) == Some(raw)
    ensures Validated(reg, view, d, o) == Fault(reg, view, d, o, raw)
  {
    hide Subst, Convert, GetFromNamespace;
  }

  lemma {:induction false} FirstAt(os: seq<CliOpt>, o: CliOpt) returns (i: nat)
    requires o in os
    ensures i < |os| && os[i] == o && forall j :: 0 <= j < i ==> os[j] != o
  {
    i := 0;
    while os[i] != o
      invariant i < |os| && forall j :: 0 <= j < i ==> os[j] != o
      invariant exists j :: i <= j < |os| && os[j] == o
      decreases |os| - i
    {
      i := i + 1;
    }
  }
}
